/** Decoding a frame's blocks with a workspace that outlives the frame. Over any
    run of frames, failed ones included, each gives what it means alone. */
module FrameDecode {
  import opened Arith
  import opened Wrappers
  import opened Executor
  import opened Huffman
  import opened RepOffsets
  import opened SeqCodes
  import opened SeqStream
  import opened TableSection
  import opened DecodeTables
  import opened SectionDecode
  import opened BlockFormat
  import opened FrameFormat
  import opened DecodeContext
  import SeqReader

  // ----- one compressed block -----

  ghost function StateOf(ws: BlockDecodeWorkspace, t: SequenceDecodeTables, reps: Reps): EntropyState
    reads ws, t
  {
    EntropyState(ws.LiveHuffman(), t.Prev(), reps)
  }

  /** A workspace and live tables between two blocks. */
  ghost predicate Between(ws: BlockDecodeWorkspace, t: SequenceDecodeTables)
    reads ws, t
  {
    ws.Valid() && t.Valid() && ws.InSync(t) && PrevReady(t.Prev())
  }

  method AppendLiterals(lits: seq<byte>, f: Frame, output: seq<byte>) returns (r: Result<seq<byte>, DecodeError>)
    requires InFrame(f, output)
    ensures r == LiteralsOnly(lits, f, output)
  {
    if |output| - f.start + |lits| > f.limit {
      return Err(OutputTooSmall);
    }
    return Ok(output + lits);
  }

  /** The sequences after a block's literals. */
  method DecodeSequences(ws: BlockDecodeWorkspace, data: seq<byte>, lits: Literals, f: Frame, output: seq<byte>,
                         t: SequenceDecodeTables, reps: Reps)
    returns (r: Result<(seq<byte>, Reps), DecodeError>)
    requires Between(ws, t) && InFrame(f, output) && lits.Valid() && SeqReader.Addressable(data)
    modifies t, ws`seqTableHeader, ws`seqTableCache, ws`seqTableCacheTablesCurrent
    ensures ws.Valid() && t.Valid()
    ensures match SequencesPart(data, lits.AsSlice(), f, output, old(StateOf(ws, t, reps)))
      case Err(e) => r == Err(e)
      case Ok((out, st)) => r == Ok((out, st.reps)) && st == StateOf(ws, t, st.reps) && Between(ws, t)
  {
    hide Section, SectionResult, FieldReady, TablesReady, BlockDecodeWorkspace.Valid, BlockDecodeWorkspace.LiveHuffman,
         SequenceDecodeTables.Valid, BlockDecodeWorkspace.InSync, SequenceCount;
    var count := SequenceCount(data);
    if count.None? {
      return Err(CorruptSequences);
    }
    var (n, size) := count.value;
    if n == 0 {
      var out := AppendLiterals(lits.AsSlice(), f, output);
      return if out.Ok? then Ok((out.value, reps)) else Err(out.error);
    }
    ghost var prev := t.Prev();
    var parsed := ws.ParseSequenceTables(data[size..], t);
    if parsed.Err? {
      return Err(parsed.error);
    }
    SectionReady(data[size..], prev);
    assert t.Prev() == AllSome(t.Tables());
    var to := Target(output, f.start, Min(f.limit - (|output| - f.start), MAX_BLOCK_SIZE), f.history);
    var done := DecodeSequencesDispatch(data[size..][parsed.value..], n, SectionTables(t.Tables()), reps, lits, to);
    return done;
  }

  /** A compressed block with the workspace: what it means, and the state for the
      next. */
  method DecodeCompressedBlock(ws: BlockDecodeWorkspace, data: seq<byte>, f: Frame, output: seq<byte>,
                               t: SequenceDecodeTables, reps: Reps)
    returns (r: Result<(seq<byte>, Reps), DecodeError>)
    requires Between(ws, t) && InFrame(f, output) && SeqReader.Addressable(data)
    modifies ws, t
    ensures ws.Valid() && t.Valid() && ws.seqTables == old(ws.seqTables) && ws.cachedDict == old(ws.cachedDict)
    ensures Sound(ws.code) && old(StateReady(StateOf(ws, t, reps)))
    ensures match CompressedBlock(ws.code, data, f, output, old(StateOf(ws, t, reps)))
      case Err(e) => r == Err(e)
      case Ok((out, st)) => r == Ok((out, st.reps)) && st == StateOf(ws, t, st.reps) && Between(ws, t)
  {
    hide LiteralsOf, SequencesPart, PrevReady, UsableTable, Sound,
         BlockDecodeWorkspace.Valid, BlockDecodeWorkspace.LiveHuffman, SequenceDecodeTables.Valid, SequenceDecodeTables.Prev;
    var l := ws.DecodeLiterals(data);
    if l.Err? {
      return Err(l.error);
    }
    var (consumed, at) := l.value;
    var lits := Resolve(at, data, ws.literalBuf);
    if consumed == |data| {
      var out := AppendLiterals(lits.AsSlice(), f, output);
      return if out.Ok? then Ok((out.value, reps)) else Err(out.error);
    }
    r := DecodeSequences(ws, data[consumed..], lits, f, output, t, reps);
  }

  // ----- the frame -----

  /** A dictionary's live tables: the predefined ones where it has none. */
  method LoadDict(t: SequenceDecodeTables, d: Dictionary)
    requires t.Valid()
    modifies t
    ensures t.Valid() && t.Prev() == d.tables
  {
    hide Predefined;
    t.ResetDefault();
    if d.tables.of.Some? {
      t.of := LiveField(d.tables.of.value, false, true);
    }
    if d.tables.ml.Some? {
      t.ml := LiveField(d.tables.ml.value, false, true);
    }
    if d.tables.ll.Some? {
      t.ll := LiveField(d.tables.ll.value, false, true);
    }
  }

  /** A workspace between two frames. */
  ghost predicate Ready(ws: BlockDecodeWorkspace)
    reads ws, ws.seqTables
  {
    ws.Valid() && (ws.seqTables != null ==> ws.seqTables.Valid() && ws.InSync(ws.seqTables))
  }

  /** What the workspace keeps of a dictionary is the dictionary's. */
  ghost predicate DictCached(ws: BlockDecodeWorkspace, d: Option<Dictionary>)
    reads ws`cachedDict
  {
    && DictReady(d)
    && (ws.cachedDict.Some? ==> d.Some? && CachedIs(ws.cachedDict.value, d.value))
  }

  ghost predicate CachedIs(c: CachedDict, d: Dictionary) {
    && FieldsOk(c.tables) && c.reps == d.reps && c.huf == d.huf
    && Three(c.tables.ll.Repeatable(), c.tables.of.Repeatable(), c.tables.ml.Repeatable()) == d.tables
  }

  method CacheDict(ws: BlockDecodeWorkspace, d: Dictionary)
    requires Ready(ws) && DictReady(Some(d))
    modifies ws`cachedDict
    ensures Ready(ws) && DictCached(ws, Some(d)) && ws.cachedDict.Some?
  {
    hide BlockDecodeWorkspace.Valid, BlockDecodeWorkspace.InSync, FieldReady, Predefined;
    var t := new SequenceDecodeTables();
    LoadDict(t, d);
    ws.cachedDict := Some(CachedDict(t.Fields(), d.reps, d.huf));
  }

  /** Tables for a frame's first compressed block: the workspace's, or fresh ones
      when an earlier frame failed and dropped them. */
  method TakeTables(ws: BlockDecodeWorkspace, d: Option<Dictionary>) returns (t: SequenceDecodeTables, reps: Reps)
    requires Ready(ws) && DictCached(ws, d)
    modifies ws`seqTables, ws`seqTableCacheTablesCurrent, ws.seqTables
    ensures Between(ws, t) && ws.seqTables == null
    ensures t.Prev() == InitialState(d).prev && reps == InitialState(d).reps
    ensures t == old(ws.seqTables) || fresh(t)
  {
    hide BlockDecodeWorkspace.HuffmanOk, BlockDecodeWorkspace.TableCacheOk, FieldReady, Predefined;
    if ws.seqTables == null {
      ws.SeqTablesReplaced();
      t := new SequenceDecodeTables();
    } else {
      t := ws.seqTables;
      ws.seqTables := null;
    }
    if ws.cachedDict.Some? {
      t.CloneFrom(ws.cachedDict.value.tables);
      ws.SeqTablesReplaced();
      reps := ws.cachedDict.value.reps;
    } else if d.Some? {
      ws.SeqTablesReplaced();
      LoadDict(t, d.value);
      reps := d.value.reps;
    } else {
      t.ClearRepeatFlags();
      reps := INITIAL;
    }
  }

  /** The workspace's Huffman state at a frame's start. */
  method BeginFrame(ws: BlockDecodeWorkspace, d: Option<Dictionary>)
    requires Ready(ws) && DictCached(ws, d)
    modifies ws`hufTable, ws`hufValid, ws`hufPairsValid, ws`hufLastWeightsValid, ws`hufLastHeaderValid
    ensures Ready(ws) && ws.LiveHuffman() == InitialState(d).huf
  {
    hide BlockDecodeWorkspace.Valid, UsableTable, FieldReady;
    ws.ResetHuffmanState();
    if ws.cachedDict.Some? && ws.cachedDict.value.huf.Some? {
      ws.ReplaceHuffman(ws.cachedDict.value.huf.value);
    } else if d.Some? && d.value.huf.Some? {
      ws.ReplaceHuffman(d.value.huf.value);
    }
  }

  /** Between two blocks of a frame: the tables are taken from the workspace at the
      first compressed block. */
  ghost predicate InBlocks(ws: BlockDecodeWorkspace, t: SequenceDecodeTables?, reps: Reps, d: Option<Dictionary>, st: EntropyState)
    reads ws, ws.seqTables, t
  {
    if t == null then Ready(ws) && ws.LiveHuffman() == st.huf && st == InitialState(d)
    else Between(ws, t) && ws.seqTables == null && st == StateOf(ws, t, reps)
  }

  lemma StateIsReady(ws: BlockDecodeWorkspace, t: SequenceDecodeTables?, reps: Reps, d: Option<Dictionary>, st: EntropyState)
    requires InBlocks(ws, t, reps, d, st) && DictReady(d)
    ensures Sound(ws.code) && StateReady(st)
  {
    hide FieldReady, BlockDecodeWorkspace.TableCacheOk;
  }

  /** A compressed block's bytes, with the frame's tables taken first. */
  method DecodeInFrame(ws: BlockDecodeWorkspace, t: SequenceDecodeTables?, reps: Reps, d: Option<Dictionary>,
                       data: seq<byte>, f: Frame, output: seq<byte>, ghost st: EntropyState)
    returns (r: Result<seq<byte>, DecodeError>, t': SequenceDecodeTables?, reps': Reps)
    requires InBlocks(ws, t, reps, d, st) && DictCached(ws, d) && InFrame(f, output) && SeqReader.Addressable(data)
    modifies ws, ws.seqTables, t
    ensures Sound(ws.code) && StateReady(st) && ws.cachedDict == old(ws.cachedDict)
    ensures match CompressedBlock(ws.code, data, f, output, st)
      case Err(e) => r == Err(e) && Ready(ws)
      case Ok((out, st')) => r == Ok(out) && InBlocks(ws, t', reps', d, st')
    ensures t' == t || t' == old(ws.seqTables) || fresh(t')
    ensures t' != null && ws.seqTables == null
  {
    hide CompressedBlock, BlockDecodeWorkspace.Valid, SequenceDecodeTables.Valid, FieldReady, UsableTable, Sound, StateReady;
    StateIsReady(ws, t, reps, d, st);
    var tables: SequenceDecodeTables;
    reps' := reps;
    if t == null {
      tables, reps' := TakeTables(ws, d);
    } else {
      tables := t;
    }
    assert st == StateOf(ws, tables, reps');
    var done := DecodeCompressedBlock(ws, data, f, output, tables, reps');
    t' := tables;
    if done.Err? {
      return Err(done.error), t', reps';
    }
    reps' := done.value.1;
    return Ok(done.value.0), t', reps';
  }

  /** One block of the input. */
  method DecodeBlock(ws: BlockDecodeWorkspace, t: SequenceDecodeTables?, reps: Reps, d: Option<Dictionary>,
                     input: seq<byte>, at: nat, f: Frame, output: seq<byte>, overrun: DecodeError, ghost st: EntropyState)
    returns (r: Result<(seq<byte>, nat, bool), DecodeError>, t': SequenceDecodeTables?, reps': Reps)
    requires InBlocks(ws, t, reps, d, st) && DictCached(ws, d) && at <= |input| && InFrame(f, output)
    requires SeqReader.Addressable(input)
    modifies ws, ws.seqTables, t
    ensures BlockInput(ws.code, input, at, f, output, st) && ws.cachedDict == old(ws.cachedDict)
    ensures match BlockAt(ws.code, input, at, f, output, st, overrun)
      case Err(e) => r == Err(e) && Ready(ws)
      case Ok(b) => r == Ok((b.output, b.at, b.last)) && InBlocks(ws, t', reps', d, b.st)
    ensures t' == t || t' == old(ws.seqTables) || fresh(t')
    ensures ws.seqTables == old(ws.seqTables) || ws.seqTables == null
  {
    hide CompressedBlock, BlockDecodeWorkspace.Valid, SequenceDecodeTables.Valid, StateReady, Sound, ParseBlockHeader;
    StateIsReady(ws, t, reps, d, st);
    t', reps' := t, reps;
    if at + 3 > |input| {
      return Err(InputExhausted), t', reps';
    }
    var header := ParseBlockHeader(input[at], input[at + 1], input[at + 2]);
    if header.None? {
      return Err(BadBlockType), t', reps';
    }
    var h, from := header.value, at + 3;
    if h.size > MAX_BLOCK_SIZE && !h.kind.Compressed? {
      return Err(BlockTooLarge), t', reps';
    }
    match h.kind {
      case Raw =>
        if from + h.size > |input| {
          return Err(InputExhausted), t', reps';
        }
        if |output| - f.start + h.size > f.limit {
          return Err(overrun), t', reps';
        }
        return Ok((output + input[from..from + h.size], from + h.size, h.last)), t', reps';
      case Rle =>
        if from >= |input| {
          return Err(InputExhausted), t', reps';
        }
        if |output| - f.start + h.size > f.limit {
          return Err(overrun), t', reps';
        }
        return Ok((output + Fill(input[from], h.size), from + 1, h.last)), t', reps';
      case Compressed =>
        if from + h.size > |input| {
          return Err(InputExhausted), t', reps';
        }
        var done;
        done, t', reps' := DecodeInFrame(ws, t, reps, d, input[from..from + h.size], f, output, st);
        if done.Err? {
          return Err(if done.error == OutputTooSmall then overrun else done.error), t', reps';
        }
        return Ok((done.value, from + h.size, h.last)), t', reps';
    }
  }

  /** A block and what it leaves of the frame. */
  method BlockStep(ws: BlockDecodeWorkspace, t: SequenceDecodeTables?, reps: Reps, d: Option<Dictionary>,
                   input: seq<byte>, at: nat, f: Frame, output: seq<byte>, overrun: DecodeError, ghost st: EntropyState)
    returns (r: Result<(seq<byte>, nat, bool), DecodeError>, t': SequenceDecodeTables?, reps': Reps, ghost st': EntropyState)
    requires InBlocks(ws, t, reps, d, st) && DictCached(ws, d) && SeqReader.Addressable(input)
    requires BlockInput(ws.code, input, at, f, output, st)
    modifies ws, ws.seqTables, t
    ensures ws.cachedDict == old(ws.cachedDict)
    ensures r.Err? ==> Ready(ws) && BlocksOf(ws.code, input, at, f, output, st, overrun) == Err(r.error)
    ensures match r
      case Err(_) => true
      case Ok((out, at', last)) =>
        && InBlocks(ws, t', reps', d, st') && at < at' && BlockInput(ws.code, input, at', f, out, st')
        && BlocksOf(ws.code, input, at, f, output, st, overrun)
          == if last then Ok((out, at')) else BlocksOf(ws.code, input, at', f, out, st', overrun)
    ensures t' == t || t' == old(ws.seqTables) || fresh(t')
    ensures ws.seqTables == old(ws.seqTables) || ws.seqTables == null
  {
    hide BlockAt, BlockDecodeWorkspace.Valid, SequenceDecodeTables.Valid, BlockInput, DictCached, Ready, InBlocks;
    InFrameAt(ws.code, input, at, f, output, st);
    st' := st;
    r, t', reps' := DecodeBlock(ws, t, reps, d, input, at, f, output, overrun, st);
    if r.Ok? {
      BlockAtKeeps(ws.code, input, at, f, output, st, overrun);
      st' := BlockAt(ws.code, input, at, f, output, st, overrun).value.st;
    }
  }

  /** The block loop. On success the frame's tables go back to the workspace; a
      frame that fails drops them. */
  method DecodeBlocks(ws: BlockDecodeWorkspace, d: Option<Dictionary>, input: seq<byte>, start: nat, f: Frame,
                      output: seq<byte>, overrun: DecodeError)
    returns (r: Result<(seq<byte>, nat), DecodeError>)
    requires Ready(ws) && ws.LiveHuffman() == InitialState(d).huf && DictCached(ws, d)
    requires start <= |input| && InFrame(f, output) && SeqReader.Addressable(input)
    modifies ws, ws.seqTables
    ensures Ready(ws) && ws.cachedDict == old(ws.cachedDict) && fresh({ws.seqTables} - {old(ws.seqTables), null})
    ensures BlockInput(ws.code, input, start, f, output, InitialState(d))
    ensures r == BlocksOf(ws.code, input, start, f, output, InitialState(d), overrun)
  {
    hide BlocksOf, BlockInput, DictCached, InitialState, InBlocks, Ready;
    var t: SequenceDecodeTables? := null;
    var reps := INITIAL;
    ghost var st := InitialState(d);
    BeginsReady(ws, input, start, f, output, d);
    var out, at := output, start;
    var last := false;
    ghost var whole := BlocksOf(ws.code, input, start, f, output, st, overrun);
    while !last
      invariant InBlocks(ws, t, reps, d, st) && DictCached(ws, d) && ws.cachedDict == old(ws.cachedDict)
      invariant BlockInput(ws.code, input, at, f, out, st)
      invariant whole == if last then Ok((out, at)) else BlocksOf(ws.code, input, at, f, out, st, overrun)
      invariant fresh({t} - {old(ws.seqTables), null})
      invariant ws.seqTables == old(ws.seqTables) || ws.seqTables == null
      decreases |input| - at, !last
    {
      var done;
      done, t, reps, st := BlockStep(ws, t, reps, d, input, at, f, out, overrun, st);
      if done.Err? {
        return Err(done.error);
      }
      out, at, last := done.value.0, done.value.1, done.value.2;
      InFrameAt(ws.code, input, at, f, out, st);
    }
    Keep(ws, t, reps, d, st);
    return Ok((out, at));
  }

  /** The frame's tables, if it took any, go back to the workspace. */
  method Keep(ws: BlockDecodeWorkspace, t: SequenceDecodeTables?, reps: Reps, d: Option<Dictionary>, ghost st: EntropyState)
    requires InBlocks(ws, t, reps, d, st)
    modifies ws`seqTables
    ensures Ready(ws) && ws.seqTables == if t != null then t else old(ws.seqTables)
  {
    hide BlockDecodeWorkspace.HuffmanOk, BlockDecodeWorkspace.TableCacheOk, SequenceDecodeTables.Valid, InitialState;
    if t != null {
      ws.seqTables := t;
    }
  }

  lemma InFrameAt(c: WeightCode, input: seq<byte>, at: nat, f: Frame, output: seq<byte>, st: EntropyState)
    requires BlockInput(c, input, at, f, output, st)
    ensures at <= |input| && InFrame(f, output)
  {
  }

  lemma BeginsReady(ws: BlockDecodeWorkspace, input: seq<byte>, at: nat, f: Frame, output: seq<byte>, d: Option<Dictionary>)
    requires Ready(ws) && ws.LiveHuffman() == InitialState(d).huf && DictCached(ws, d) && at <= |input| && InFrame(f, output)
    ensures BlockInput(ws.code, input, at, f, output, InitialState(d)) && InBlocks(ws, null, INITIAL, d, InitialState(d))
  {
    StateIsReady(ws, null, INITIAL, d, InitialState(d));
  }

  /** The checks after the last block: the checksum, then the declared size. */
  method FinishBlocks(hash: seq<byte> -> nat, header: FrameHeader, input: seq<byte>, before: nat, out: seq<byte>, at: nat)
    returns (r: Result<(seq<byte>, nat), DecodeError>)
    requires at <= |input| && before <= |out|
    ensures r == FinishFrame(hash, header, input, before, out, at)
    ensures r.Ok? ==> r.value.0 == out && EndChecked(hash, header, out[before..], input, r.value.1)
  {
    hide Bits.LE;
    var end := at;
    if header.checksum {
      if at + 4 > |input| {
        return Err(InputExhausted);
      }
      FourBytesAre(input, at);
      if hash(out[before..]) % 0x1_0000_0000 != FourBytes(input, at) {
        return Err(ChecksumMismatch);
      }
      end := at + 4;
    }
    if header.contentSize.Some? && |out| - before != header.contentSize.value {
      return Err(FrameSizeMismatch);
    }
    return Ok((out, end));
  }

  /** A frame with a workspace: what the frame means, and a workspace ready for the
      next frame whether or not this one failed. */
  method DecompressFrame(ws: BlockDecodeWorkspace, hash: seq<byte> -> nat, d: Option<Dictionary>, header: FrameHeader,
                         input: seq<byte>, output: seq<byte>, maxOutput: nat)
    returns (r: Result<(seq<byte>, nat), DecodeError>)
    requires Ready(ws) && DictCached(ws, d) && header.size <= |input| && SeqReader.Addressable(input)
    modifies ws, ws.seqTables
    ensures Ready(ws) && ws.cachedDict == old(ws.cachedDict) && Sound(ws.code)
    ensures r == FrameOf(ws.code, hash, d, header, input, output, maxOutput)
    ensures Passed(r, hash, header, input, output)
    ensures fresh({ws.seqTables} - {old(ws.seqTables), null})
  {
    hide BlocksOf, BlockDecodeWorkspace.Valid, SequenceDecodeTables.Valid, Sound, DictReady, InitialState, FinishFrame,
         BlockDecodeWorkspace.InSync, BlockDecodeWorkspace.LiveHuffman, BlockInput, EndChecked;
    WorkspaceSound(ws);
    if header.contentSize.Some? && header.contentSize.value > maxOutput {
      return Err(OutputTooSmall);
    }
    var f := Frame(|output|, FrameLimit(header, maxOutput), HistoryOf(d));
    BeginFrame(ws, d);
    var blocks := DecodeBlocks(ws, d, input, header.size, f, output, Overrun(header));
    if blocks.Err? {
      return Err(blocks.error);
    }
    r := FinishBlocks(hash, header, input, |output|, blocks.value.0, blocks.value.1);
    PassedFrom(r, hash, header, input, output, blocks.value.0);
  }

  lemma PassedFrom(r: Result<(seq<byte>, nat), DecodeError>, hash: seq<byte> -> nat, header: FrameHeader, input: seq<byte>,
                   output: seq<byte>, out: seq<byte>)
    requires output <= out
    requires r.Ok? ==> r.value.0 == out && EndChecked(hash, header, out[|output|..], input, r.value.1)
    ensures Passed(r, hash, header, input, output)
  {
  }

  lemma WorkspaceSound(ws: BlockDecodeWorkspace)
    requires Ready(ws)
    ensures Sound(ws.code)
  {
  }

  // ----- a context -----

  /** A decode that a context is asked for. */
  datatype Job = Job(header: FrameHeader, input: seq<byte>, output: seq<byte>, maxOutput: nat)

  ghost predicate Callable(j: Job) {
    j.header.size <= |j.input| && SeqReader.Addressable(j.input)
  }

  ghost function Alone(c: WeightCode, hash: seq<byte> -> nat, d: Option<Dictionary>, j: Job): Result<(seq<byte>, nat), DecodeError>
    requires Sound(c) && DictReady(d) && Callable(j)
  {
    FrameOf(c, hash, d, j.header, j.input, j.output, j.maxOutput)
  }

  lemma ShorterAddressable(input: seq<byte>, n: nat)
    requires SeqReader.Addressable(input) && n <= |input|
    ensures SeqReader.Addressable(input[n..])
  {
  }

  lemma AloneIs(c: WeightCode, hash: seq<byte> -> nat, d: Option<Dictionary>, header: FrameHeader, input: seq<byte>,
                output: seq<byte>, maxOutput: nat) returns (r: Result<(seq<byte>, nat), DecodeError>)
    requires Sound(c) && DictReady(d) && header.size <= |input| && SeqReader.Addressable(input)
    ensures Callable(Job(header, input, output, maxOutput))
    ensures r == FrameOf(c, hash, d, header, input, output, maxOutput)
    ensures Alone(c, hash, d, Job(header, input, output, maxOutput)) == r
  {
    hide Sound, DictReady, FrameOf;
    r := FrameOf(c, hash, d, header, input, output, maxOutput);
  }

  /** The frames of an input, after its first start. */
  lemma NextFrame(c: WeightCode, hash: seq<byte> -> nat, d: Option<Dictionary>, parse: seq<byte> -> Result<FrameStart, DecodeError>,
                  input: seq<byte>, output: seq<byte>, room: nat)
    requires Sound(c) && DictReady(d) && Starts(parse)
    ensures |input| == 0 ==> FramesOf(c, hash, d, parse, input, output, room) == Ok(output)
    ensures |input| > 0 ==>
      match parse(input)
      case Err(e) => FramesOf(c, hash, d, parse, input, output, room) == Err(e)
      case Ok(Skippable(n)) =>
        n <= |input| && 0 < n
        && FramesOf(c, hash, d, parse, input, output, room) == FramesOf(c, hash, d, parse, input[n..], output, room)
      case Ok(Standard(h, _)) =>
        h.size <= |input|
        && match FrameOf(c, hash, d, h, input, output, room)
           case Err(e) => FramesOf(c, hash, d, parse, input, output, room) == Err(e)
           case Ok((out, at)) =>
             && 0 < at <= |input| && output <= out && |out| - |output| <= room
             && FramesOf(c, hash, d, parse, input, output, room)
               == FramesOf(c, hash, d, parse, input[at..], out, room - (|out| - |output|))
  {
    hide Sound, DictReady, FrameOf;
  }

  class DecompressContext {
    const dict: Option<Dictionary>
    const ws: BlockDecodeWorkspace

    ghost predicate Valid()
      reads ws, ws.seqTables
    {
      Ready(ws) && DictCached(ws, dict)
    }

    constructor (c: WeightCode, d: Option<Dictionary>)
      requires Sound(c) && DictReady(d)
      ensures Valid() && dict == d && ws.code == c && fresh(ws) && fresh({ws.seqTables} - {null})
    {
      hide Sound, DictReady, FieldReady, UsableTable;
      var w := new BlockDecodeWorkspace(c);
      if d.Some? {
        CacheDict(w, d.value);
      }
      dict, ws := d, w;
    }

    lemma SoundAndReady()
      requires Valid()
      ensures Sound(ws.code) && DictReady(dict)
    {
      WorkspaceSound(ws);
    }

    method Decode(hash: seq<byte> -> nat, j: Job) returns (r: Result<(seq<byte>, nat), DecodeError>)
      requires Valid() && Callable(j)
      modifies ws, ws.seqTables
      ensures Valid() && Sound(ws.code) && DictReady(dict)
      ensures r == Alone(ws.code, hash, dict, j)
      ensures fresh({ws.seqTables} - {old(ws.seqTables), null})
    {
      hide Sound, DictReady, FrameOf, BlockDecodeWorkspace.Valid, SequenceDecodeTables.Valid, BlockDecodeWorkspace.InSync;
      r := DecompressFrame(ws, hash, dict, j.header, j.input, j.output, j.maxOutput);
    }

    /** Every frame of an input appended to the output. */
    method DecompressInto(hash: seq<byte> -> nat, parse: seq<byte> -> Result<FrameStart, DecodeError>, input: seq<byte>,
                          output: seq<byte>, maxOutput: nat)
      returns (r: Result<seq<byte>, DecodeError>)
      requires Valid() && Starts(parse) && SeqReader.Addressable(input)
      modifies ws, ws.seqTables
      ensures Valid() && Sound(ws.code) && DictReady(dict)
      ensures r == FramesOf(ws.code, hash, dict, parse, input, output, maxOutput)
      ensures fresh({ws.seqTables} - {old(ws.seqTables), null})
    {
      hide *;
      SoundAndReady();
      ghost var whole := FramesOf(ws.code, hash, dict, parse, input, output, maxOutput);
      var out, rest := output, input;
      var room: nat := maxOutput;
      while |rest| > 0
        invariant Valid() && SeqReader.Addressable(rest)
        invariant fresh({ws.seqTables} - {old(ws.seqTables), null})
        invariant whole == FramesOf(ws.code, hash, dict, parse, rest, out, room)
        decreases |rest|
      {
        NextFrame(ws.code, hash, dict, parse, rest, out, room);
        var start := parse(rest);
        if start.Err? {
          return Err(start.error);
        }
        if start.value.Skippable? {
          ShorterAddressable(rest, start.value.size);
          rest := rest[start.value.size..];
        } else {
          ghost var frame := AloneIs(ws.code, hash, dict, start.value.header, rest, out, room);
          var done := Decode(hash, Job(start.value.header, rest, out, room));
          if done.Err? {
            return Err(done.error);
          }
          ShorterAddressable(rest, done.value.1);
          out, rest, room := done.value.0, rest[done.value.1..], room - (|done.value.0| - |out|);
        }
      }
      NextFrame(ws.code, hash, dict, parse, rest, out, room);
      return Ok(out);
    }

    /** Cache transparency: over any run of decodes, failed ones included, each
        result or error is that of the frame decoded alone. */
    method DecodeAll(hash: seq<byte> -> nat, jobs: seq<Job>) returns (results: seq<Result<(seq<byte>, nat), DecodeError>>)
      requires Valid() && forall i :: 0 <= i < |jobs| ==> Callable(jobs[i])
      modifies ws, ws.seqTables
      ensures Valid() && Sound(ws.code) && DictReady(dict) && |results| == |jobs|
      ensures forall i :: 0 <= i < |jobs| ==> results[i] == Alone(ws.code, hash, dict, jobs[i])
    {
      hide *;
      SoundAndReady();
      results := [];
      for i := 0 to |jobs|
        invariant Valid() && |results| == i
        invariant fresh({ws.seqTables} - {old(ws.seqTables), null})
        invariant forall j :: 0 <= j < i ==> results[j] == Alone(ws.code, hash, dict, jobs[j])
      {
        var r := Decode(hash, jobs[i]);
        results := results + [r];
      }
    }
  }
}
