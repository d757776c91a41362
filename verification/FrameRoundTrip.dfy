/** One-shot compression, with and without a dictionary, and the theorem about it:
    the frame decodes to the input, in one shot and with a bounded history, whatever
    the finder, the long matches, the block codings and the estimates behind them. */
module FrameRoundTrip {
  import opened Arith
  import opened Bits
  import opened Wrappers
  import opened RepOffsets
  import opened MatchSearch
  import opened LevelSearch
  import opened SeqStream
  import opened TableSection
  import EncoderTables
  import opened BlockFormat
  import opened FrameFormat
  import opened StreamFormat
  import opened StreamReach
  import opened LiteralsEncode
  import opened BlockEncode
  import opened BlockReach
  import opened BlockWorkspace
  import opened Rebase
  import opened FrameEncode
  import DFast
  import Fast
  import Ldm

  // ----- the frame around the blocks -----

  /** The checksum field. */
  function SumBytes(hash: nat): seq<byte> {
    ToLE(hash % 0x1_0000_0000, 4)
  }

  lemma SumReads(hash: nat)
    ensures |SumBytes(hash)| == 4 && LE(SumBytes(hash)) == hash % 0x1_0000_0000
  {
    hide LE, ToLE, Low;
    Pow2Large();
    LEToLE(hash % 0x1_0000_0000, 4);
    LowOfSmall(hash % 0x1_0000_0000, 32);
  }

  /** The decoding of a frame that declares its content's size. */
  function DecodingOf(c: WeightCode, header: FrameHeader, dict: Option<Dictionary>, output: seq<byte>, maxOutput: nat, window: nat)
    : Decoding
  {
    Decoding(c, Frame(|output|, FrameLimit(header, maxOutput), HistoryOf(dict)), Overrun(header), window)
  }

  /** A frame with a header of `n` bytes decodes to its content, after any output
      and with anything behind it, and is consumed exactly. */
  ghost predicate DecodesBack(c: WeightCode, hash: seq<byte> -> nat, dict: Option<Dictionary>, n: nat, frame: seq<byte>,
                              content: seq<byte>, rest: seq<byte>, output: seq<byte>, maxOutput: nat) {
    && Sound(c) && DictReady(dict) && n <= |frame|
    && FrameOf(c, hash, dict, FrameHeader(Some(|content|), true, n), frame + rest, output, maxOutput)
      == Ok((output + content, |frame|))
  }

  /** A streaming decoder that keeps this window decodes it to the same content. */
  ghost predicate StreamsBack(c: WeightCode, hash: seq<byte> -> nat, dict: Option<Dictionary>, n: nat, frame: seq<byte>,
                              content: seq<byte>, rest: seq<byte>, maxOutput: nat, window: nat) {
    && Sound(c) && DictReady(dict) && n <= |frame|
    && StreamFrame(c, hash, dict, FrameHeader(Some(|content|), true, n), window, frame + rest, maxOutput, maxOutput)
      == Some((content, |frame|))
  }

  /** Blocks that carry a decoder through the content, with a header in front and
      the checksum behind, are a frame of it. */
  lemma FrameReads(c: WeightCode, hash: seq<byte> -> nat, dict: Option<Dictionary>, head: seq<byte>, blocks: seq<byte>,
                   content: seq<byte>, rest: seq<byte>, output: seq<byte>, maxOutput: nat, window: nat)
    requires Sound(c) && DictReady(dict) && |content| <= maxOutput
    requires var header := FrameHeader(Some(|content|), true, |head|);
      Finishes(DecodingOf(c, header, dict, output, maxOutput, window), output, InitialState(dict), blocks, output + content)
    ensures DecodesBack(c, hash, dict, |head|, head + blocks + SumBytes(hash(content)), content, rest, output, maxOutput)
    ensures var input := head + blocks + SumBytes(hash(content)) + rest;
      |head| <= |input| && FrameWithin(c, dict, FrameHeader(Some(|content|), true, |head|), window, input, output, maxOutput)
  {
    hide Sound, SumBytes, LE, BlocksWithin, BlocksOf;
    var header := FrameHeader(Some(|content|), true, |head|);
    var sum := SumBytes(hash(content));
    var input := head + blocks + sum + rest;
    var d := DecodingOf(c, header, dict, output, maxOutput, window);
    SumReads(hash(content));
    Slices(head, blocks, sum, rest);
    assert Embeds(input, |head|, blocks);
    assert Go(d, input, |head|, output, InitialState(dict)) == Ok((output + content, |head| + |blocks|));
    assert Stays(d, input, |head|, output, InitialState(dict));
    assert (output + content)[|output|..] == content;
  }

  /** Such a frame also streams. */
  lemma FrameStreams(c: WeightCode, hash: seq<byte> -> nat, dict: Option<Dictionary>, head: seq<byte>, blocks: seq<byte>,
                     content: seq<byte>, rest: seq<byte>, output: seq<byte>, maxOutput: nat, window: nat)
    requires Sound(c) && DictReady(dict) && |content| <= maxOutput
    requires var header := FrameHeader(Some(|content|), true, |head|);
      Finishes(DecodingOf(c, header, dict, output, maxOutput, window), output, InitialState(dict), blocks, output + content)
    ensures DecodesBack(c, hash, dict, |head|, head + blocks + SumBytes(hash(content)), content, rest, output, maxOutput)
    ensures StreamsBack(c, hash, dict, |head|, head + blocks + SumBytes(hash(content)), content, rest, maxOutput, window)
  {
    hide Sound, DictReady, SumBytes, Finishes, FrameOf, FrameWithin, StreamFrame;
    FrameReads(c, hash, dict, head, blocks, content, rest, output, maxOutput, window);
    var header := FrameHeader(Some(|content|), true, |head|);
    var input := head + blocks + SumBytes(hash(content)) + rest;
    StreamFrameAccepts(c, hash, dict, header, window, input, maxOutput, maxOutput, output);
    var (out, at) := StreamFrame(c, hash, dict, header, window, input, maxOutput, maxOutput).value;
    assert (output + out)[|output|..] == (output + content)[|output|..];
    assert (output + out)[|output|..] == out && (output + content)[|output|..] == content;
  }

  lemma Slices(head: seq<byte>, blocks: seq<byte>, sum: seq<byte>, rest: seq<byte>)
    requires |sum| == 4
    ensures var input := head + blocks + sum + rest; var n := |head| + |blocks|;
      input[|head|..n] == blocks && input[n..n + 4] == sum
  {
  }

  // ----- one shot -----

  /** A frame's options fit its tables. */
  ghost predicate Fits(o: Options, tableSize: nat, longSize: nat, far: nat) {
    && Reaches(o, far) && 4 <= far && o.level.window + MAX_BLOCK <= MAX_SPAN && 1 <= o.level.window
    && 4 <= o.level.mls <= 8 && o.level.stepSize >= 2 && o.level.stepIncr >= 1 && o.level.attached == None
    && InTable(o.level.hash, tableSize) && InTable(o.level.long, longSize)
  }

  method MakeFinders(o: Options, tableSize: nat, longSize: nat, ldm: Option<(Ldm.LdmParams, Ldm.Hashes)>, ghost far: nat)
    returns (s: Finders)
    requires Fits(o, tableSize, longSize, far)
    requires ldm.Some? ==> ldm.value.0.bucketSizeLog <= ldm.value.0.hashLog && ldm.value.0.minMatch >= 4
    ensures FindersReady(s, o, 0) && fresh(s.Own()) && s.table.Length == tableSize && s.long.Length == longSize
    ensures s.positions.base == 0
  {
    hide InTable;
    var positions := new PositionBase(o.level.window);
    var table := new Pos[tableSize](_ => 0);
    var long := new Pos[longSize](_ => 0);
    var state: Option<Ldm.LdmState> := None;
    if ldm.Some? {
      var l := new Ldm.LdmState(ldm.value.0, ldm.value.1);
      state := Some(l);
    }
    s := Finders(positions, table, long, state);
  }

  lemma InitialProgress(d: Decoding, combined: seq<byte>, plen: nat, far: nat, output: seq<byte>, st: EntropyState, reps: Reps)
    requires plen <= |combined| && Together(d, output, st, reps, far) && d.f.start == |output| && d.f.history == combined[..plen]
    requires |combined| - plen <= d.f.limit
    ensures Progress(d, output, st, combined, plen, far, [], output, st, plen, reps)
  {
    hide Carries, Bounded, Proper;
    assert output[|output|..] == [];
    ProgressBegins(d, output, st, combined, plen, far, reps);
  }

  /** One-shot compression without a dictionary. The frame header is given. The
      frame decodes to the input, after any output and with anything behind it, and
      so it does with a bounded history, if the window reaches as far as the matches
      or holds all of the input. */
  method CompressFrame(input: seq<byte>, head: seq<byte>, o: Options, blockSize: nat, tableSize: nat, longSize: nat,
                       ldm: Option<(Ldm.LdmParams, Ldm.Hashes)>, hash: seq<byte> -> nat,
                       ghost c: WeightCode, ghost far: nat, ghost rest: seq<byte>, ghost output: seq<byte>, ghost maxOutput: nat,
                       ghost window: nat)
    returns (frame: seq<byte>)
    requires 0 < blockSize <= MAX_BLOCK_SIZE && Fits(o, tableSize, longSize, far) && far >= 8
    requires ldm.Some? ==> ldm.value.0.bucketSizeLog <= ldm.value.0.hashLog && ldm.value.0.minMatch >= 4
    requires Sound(c) && Agrees(c, o.describe) && |input| <= maxOutput
    ensures DecodesBack(c, hash, None, |head|, frame, input, rest, output, maxOutput)
    ensures far <= window || |input| <= window ==>
      StreamsBack(c, hash, None, |head|, frame, input, rest, maxOutput, window)
  {
    hide Sound, Agrees, Finishes, Reaches, FindersReady, Progress, Remembers, Fits;
    ghost var header := FrameHeader(Some(|input|), true, |head|);
    ghost var kept := if far <= window then window else Max(window, |input|);
    ghost var d := DecodingOf(c, header, None, output, maxOutput, kept);
    ghost var st := InitialState(None);
    InitialTogether(d, output, far);
    var blocks;
    if |input| == 0 {
      blocks := StoreBlock([], true, d, output, st);
      assert output + [] == output + input;
    } else {
      var s := MakeFinders(o, tableSize, longSize, ldm, far);
      var ws := new BlockEncodeWorkspace();
      FitsReaches(o, tableSize, longSize, far);
      NothingRemembered(o, ws, st, far);
      InitialProgress(d, input, 0, far, output, st, INITIAL);
      blocks := CompressBlocks(input, 0, blockSize, o, INITIAL, s, ws, d, output, st, AnyFields(), far);
      assert input[0..] == input;
    }
    frame := head + blocks + SumBytes(hash(input));
    FrameStreams(c, hash, None, head, blocks, input, rest, output, maxOutput, kept);
  }

  ghost function AnyFields(): Fields {
    Fields(EncoderTables.RleField(LiteralLength, 0), EncoderTables.RleField(OffsetCode, 0), EncoderTables.RleField(MatchLength, 0))
  }

  lemma FitsReaches(o: Options, tableSize: nat, longSize: nat, far: nat)
    requires Fits(o, tableSize, longSize, far)
    ensures Reaches(o, far)
  {
  }

  lemma InitialTogether(d: Decoding, output: seq<byte>, far: nat)
    requires Sound(d.c) && InFrame(d.f, output) && far >= 8 && KeepsReach(d.window, far, d.f)
    ensures Proper(d, output, InitialState(None)) && Together(d, output, InitialState(None), INITIAL, far)
  {
  }

  lemma NothingRemembered(o: Options, ws: BlockEncodeWorkspace, st: EntropyState, far: nat)
    requires ws.prevHuffman == None && !ws.HasRepeat()
    ensures Remembers(o, ws, st, AnyFields(), far)
  {
  }

  // ----- with a dictionary -----

  /** The tables begin with the dictionary's positions: for a Fast search of one
      block they are attached beside an empty table. */
  method Prime(combined: seq<byte>, plen: nat, o: Options, s: Finders, tableSize: nat, longSize: nat, ghost far: nat)
    returns (o': Options)
    requires Fits(o, tableSize, longSize, far) && plen <= |combined| && plen <= MAX_SPAN
    requires FindersReady(s, o, 0) && s.positions.base == 0 && s.table.Length == tableSize && s.long.Length == longSize
    modifies s.table, s.long
    ensures o' == o.(level := o.level.(attached := o'.level.attached)) && FindersReady(s, o', plen) && Reaches(o', far)
  {
    hide InTable;
    var p := o.level;
    var attached: Option<Fast.Attached> := None;
    match p.strategy {
      case UseDFast =>
        DFast.Prefill(combined[..plen], plen, p.long, p.hash, s.long, s.table);
      case UseFast =>
        if |combined| - plen <= MAX_BLOCK_SIZE {
          var table := new Pos[tableSize](_ => 0);
          Fast.Prefill(combined, plen, p.hash, table);
          attached := Some(Fast.Attached(table[..], p.hash, plen));
        } else {
          Fast.Prefill(combined, plen, p.hash, s.table);
        }
    }
    o' := o.(level := p.(attached := attached));
  }

  /** One-shot compression after a dictionary. The workspace holds the encoder's
      side of the dictionary's entropy tables. */
  method CompressWithDict(input: seq<byte>, dict: Dictionary, head: seq<byte>, o: Options, tableSize: nat, longSize: nat,
                          ws: BlockEncodeWorkspace, hash: seq<byte> -> nat, ghost f0: Fields,
                          ghost c: WeightCode, ghost far: nat, ghost rest: seq<byte>, ghost output: seq<byte>, ghost maxOutput: nat,
                          ghost window: nat)
    returns (frame: seq<byte>)
    requires Fits(o, tableSize, longSize, far) && Sound(c) && Agrees(c, o.describe) && |input| <= maxOutput
    requires DictReady(Some(dict)) && Bounded(dict.reps, far) && |dict.content| <= MAX_SPAN
    requires Remembers(o, ws, InitialState(Some(dict)), f0, far)
    modifies ws
    ensures DecodesBack(c, hash, Some(dict), |head|, frame, input, rest, output, maxOutput)
    ensures far <= window || |input| <= window ==>
      StreamsBack(c, hash, Some(dict), |head|, frame, input, rest, maxOutput, window)
  {
    hide Sound, Agrees, Finishes, Reaches, FindersReady, Progress, Remembers, Fits, DictReady, Bounded;
    ghost var header := FrameHeader(Some(|input|), true, |head|);
    ghost var kept := if far <= window then window else Max(window, |input|);
    ghost var d := DecodingOf(c, header, Some(dict), output, maxOutput, kept);
    ghost var st := InitialState(Some(dict));
    DictTogether(d, dict, output, far);
    var blocks;
    if |input| == 0 {
      blocks := StoreBlock([], true, d, output, st);
      assert output + [] == output + input;
    } else {
      var plen := |dict.content|;
      var combined := dict.content + input;
      assert combined[..plen] == dict.content && combined[plen..] == input;
      var s := MakeFinders(o, tableSize, longSize, None, far);
      var o' := Prime(combined, plen, o, s, tableSize, longSize, far);
      SameMemory(o, o', ws, st, f0, far);
      InitialProgress(d, combined, plen, far, output, st, dict.reps);
      blocks := CompressBlocks(combined, plen, MAX_BLOCK_SIZE, o', dict.reps, s, ws, d, output, st, f0, far);
    }
    frame := head + blocks + SumBytes(hash(input));
    FrameStreams(c, hash, Some(dict), head, blocks, input, rest, output, maxOutput, kept);
  }

  lemma DictTogether(d: Decoding, dict: Dictionary, output: seq<byte>, far: nat)
    requires Sound(d.c) && InFrame(d.f, output) && DictReady(Some(dict)) && Bounded(dict.reps, far) && KeepsReach(d.window, far, d.f)
    ensures Proper(d, output, InitialState(Some(dict))) && Together(d, output, InitialState(Some(dict)), dict.reps, far)
  {
    hide Sound, PrevReady, UsableTable;
  }

  lemma SameMemory(o: Options, o': Options, ws: BlockEncodeWorkspace, st: EntropyState, f0: Fields, far: nat)
    requires Remembers(o, ws, st, f0, far) && o'.rawLiterals == o.rawLiterals
    ensures Remembers(o', ws, st, f0, far)
  {
    hide CoversAll, BlockEncodeWorkspace.Mirrors;
  }
}
