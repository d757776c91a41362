/** What the bounded history costs: streaming accepts exactly the inputs that one
    shot accepts and whose offsets stay within what the window keeps, and gives
    the same bytes. The reach of an offset is stated in numbers. */
module StreamReach {
  import opened Arith
  import opened Wrappers
  import opened Replay
  import opened RepOffsets
  import opened SeqStream
  import opened SequenceRun
  import opened SectionDecode
  import opened TableSection
  import opened BlockFormat
  import opened FrameFormat
  import opened StreamFormat
  import Bits

  // ----- how far back a sequence may go -----

  /** Bytes a block may refer to when the frame has `produced` bytes: a window of
      them once there is one, before that all, with the dictionary. */
  function Reach(window: nat, dict: nat, produced: nat): nat {
    if produced < window then dict + produced else Min(window, dict + produced)
  }

  /** Every offset is within `reach` bytes and what the block has added so far. */
  ghost predicate OffsetsWithin(raws: seq<RawSeq>, reps: Reps, reach: nat)
    requires forall i :: 0 <= i < |raws| ==> raws[i].offsetValue > 0
    decreases |raws|
  {
    |raws| == 0 ||
      var o := DecodeOffset(raws[0].offsetValue, raws[0].ll, reps);
      o.offset <= reach + raws[0].ll && OffsetsWithin(raws[1..], o.reps, reach + raws[0].ll + raws[0].ml)
  }

  /** The same of the sequences of a block's bytes, if it has any. */
  ghost predicate SequencesWithin(data: seq<byte>, st: EntropyState, reach: nat)
    requires PrevReady(st.prev)
  {
    SequenceCount(data).Some? && SequenceCount(data).value.0 > 0 ==>
      var (n, size) := SequenceCount(data).value;
      Section(data[size..], st.prev).Ok? ==>
        var (t, m) := Section(data[size..], st.prev).value;
        SectionReady(data[size..], st.prev);
        StreamWithin(data[size..][m..], SectionTables(t), n, st.reps, reach)
  }

  ghost predicate StreamWithin(data: seq<byte>, t: SeqTables, n: nat, reps: Reps, reach: nat)
    requires n > 0 && TablesReady(t)
  {
    Bits.Marked(data) && DecodeStream(Bits.Unmark(data), t, n).Some? ==>
      OffsetsWithin(DecodeStream(Bits.Unmark(data), t, n).value, reps, reach)
  }

  ghost predicate BlockWithin(c: WeightCode, data: seq<byte>, st: EntropyState, reach: nat)
    requires Sound(c) && StateReady(st)
  {
    StateParts(st);
    LiteralsOf(c, data, st.huf).Ok? ==>
      var l := LiteralsOf(c, data, st.huf).value;
      SequencesWithin(data[l.consumed..], st.(huf := l.huf), reach)
  }

  // ----- sequences -----

  lemma {:induction false} ExecManyAhead(h: seq<byte>, out: seq<byte>, short: seq<byte>, st: BlockState, raws: seq<RawSeq>,
                                         lits: seq<byte>, limit: nat, limit': nat)
    requires EndsWith(h + out, short) && forall i :: 0 <= i < |raws| ==> raws[i].offsetValue > 0
    requires |out + st.out| <= limit <= |out| + limit'
    requires ExecMany(Scope(h, lits, limit), st.(out := out + st.out), raws).Some?
    requires OffsetsWithin(raws, st.reps, |short| + |st.out|)
    ensures ExecMany(Scope(short, lits, limit'), st, raws).Some?
    ensures |out| + |ExecMany(Scope(short, lits, limit'), st, raws).value.out| <= limit
    decreases |raws|
  {
    hide DecodeOffset, ExecSeq;
    if |raws| > 0 {
      var o := DecodeOffset(raws[0].offsetValue, raws[0].ll, st.reps);
      ExecSeqAhead(h, out, short, st.out, lits, st.lp, raws[0].ll, raws[0].ml, o.offset, limit, limit');
      var st' := ExecRaw(Scope(short, lits, limit'), st, raws[0]).value;
      ExecManyAhead(h, out, short, st', raws[1..], lits, limit, limit');
    }
  }

  /** A sequence that runs over the whole history, and whose offset the end of it
      has, runs over that. */
  lemma ExecSeqAhead(h: seq<byte>, out: seq<byte>, short: seq<byte>, o: seq<byte>, lits: seq<byte>, lp: nat,
                     ll: nat, ml: nat, offset: nat, limit: nat, limit': nat)
    requires EndsWith(h + out, short) && limit <= |out| + limit'
    requires ExecSeq(h, out + o, lits, lp, ll, ml, offset, limit).Ok? && offset <= |short| + |o| + ll
    ensures ExecSeq(short, o, lits, lp, ll, ml, offset, limit').Ok?
    ensures ExecSeq(h, out + o, lits, lp, ll, ml, offset, limit)
      == Ok(out + ExecSeq(short, o, lits, lp, ll, ml, offset, limit').value)
    ensures |ExecSeq(short, o, lits, lp, ll, ml, offset, limit').value| == |o| + ll + ml
  {
    ExecSeqLength(h, out, o, lits, lp, ll, ml, offset, limit);
    assert ExecSeq(short, o, lits, lp, ll, ml, offset, limit').Ok? by { hide CopyMatch; }
    hide ExecSeq;
    ExecSeqBehind(h, out, short, o, lits, lp, ll, ml, offset, limit, limit');
  }

  lemma ExecSeqLength(h: seq<byte>, out: seq<byte>, o: seq<byte>, lits: seq<byte>, lp: nat, ll: nat, ml: nat, offset: nat, limit: nat)
    requires ExecSeq(h, out + o, lits, lp, ll, ml, offset, limit).Ok?
    ensures |out| + |o| + ll + ml <= limit && offset > 0
  {
    hide CopyMatch;
  }

  /** Sequences that run have their offsets within what they run over. */
  lemma {:induction false} ExecManyWithin(sc: Scope, st: BlockState, raws: seq<RawSeq>)
    requires forall i :: 0 <= i < |raws| ==> raws[i].offsetValue > 0
    requires ExecMany(sc, st, raws).Some?
    ensures OffsetsWithin(raws, st.reps, |sc.history| + |st.out|)
    decreases |raws|
  {
    hide DecodeOffset, CopyMatch;
    if |raws| > 0 {
      var st' := ExecRaw(sc, st, raws[0]).value;
      ExecManyWithin(sc, st', raws[1..]);
    }
  }

  // ----- sections and blocks -----

  lemma SectionAhead(data: seq<byte>, t: SeqTables, n: nat, short: seq<byte>, room: nat, f: Frame, output: seq<byte>,
                     maxBlock: nat, lits: seq<byte>, reps: Reps)
    requires n > 0 && TablesReady(t) && f.start <= |output| && EndsWith(f.history + output[f.start..], short)
    requires SectionOf(data, t, n, Target(output, f.start, maxBlock, f.history), lits, reps).Some? && maxBlock <= room
    requires StreamWithin(data, t, n, reps, |short|)
    ensures SectionOf(data, t, n, Target([], 0, room, short), lits, reps).Some?
    ensures |SectionOf(data, t, n, Target([], 0, room, short), lits, reps).value.0| <= maxBlock
  {
    hide TablesReady, DecodeStream, ExecMany, OffsetsWithin;
    var out := output[f.start..];
    var limit := |output| - f.start + maxBlock;
    var nothing: seq<byte> := [];
    assert nothing[0..] == nothing && nothing[..0] == nothing && out + nothing == out;
    var raws := DecodeStream(Bits.Unmark(data), t, n).value;
    var st0 := BlockState(nothing, 0, reps);
    ExecManyAhead(f.history, out, short, st0, raws, lits, limit, room);
    ExecManyBehind(f.history, out, short, st0, raws, lits, limit, room);
  }

  lemma SectionWithin(data: seq<byte>, t: SeqTables, n: nat, short: seq<byte>, room: nat, lits: seq<byte>, reps: Reps)
    requires n > 0 && TablesReady(t) && SectionOf(data, t, n, Target([], 0, room, short), lits, reps).Some?
    ensures StreamWithin(data, t, n, reps, |short|)
  {
    hide TablesReady, DecodeStream, ExecMany, OffsetsWithin;
    var nothing: seq<byte> := [];
    assert nothing[0..] == nothing;
    var raws := DecodeStream(Bits.Unmark(data), t, n).value;
    ExecManyWithin(Scope(short, lits, room), BlockState(nothing, 0, reps), raws);
  }

  lemma SequencesAhead(data: seq<byte>, lits: seq<byte>, short: seq<byte>, room: nat, f: Frame, output: seq<byte>, st: EntropyState)
    requires PrevReady(st.prev) && InFrame(f, output) && EndsWith(f.history + output[f.start..], short)
    requires SequenceCount(data).Some? && SequenceCount(data).value.0 > 0
    requires SequencesPart(data, lits, f, output, st).Ok? && f.limit - (|output| - f.start) <= room
    requires SequencesWithin(data, st, |short|)
    ensures SequencesPart(data, lits, Frame(0, room, short), [], st).Ok?
    ensures |output| - f.start + |SequencesPart(data, lits, Frame(0, room, short), [], st).value.0| <= f.limit
  {
    hide Section, SectionOf, SectionError, FieldReady, TablesReady, SequenceCount, StreamWithin;
    var (n, size) := SequenceCount(data).value;
    var (t, m) := Section(data[size..], st.prev).value;
    SectionReady(data[size..], st.prev);
    SectionAhead(data[size..][m..], SectionTables(t), n, short, Min(room, MAX_BLOCK_SIZE), f, output,
                 Min(f.limit - (|output| - f.start), MAX_BLOCK_SIZE), lits, st.reps);
  }

  lemma SequencesWithinOf(data: seq<byte>, lits: seq<byte>, short: seq<byte>, room: nat, st: EntropyState)
    requires PrevReady(st.prev) && SequencesPart(data, lits, Frame(0, room, short), [], st).Ok?
    ensures SequencesWithin(data, st, |short|)
  {
    hide Section, SectionOf, SectionError, FieldReady, TablesReady, SequenceCount, StreamWithin;
    var (n, size) := SequenceCount(data).value;
    if n > 0 {
      var (t, m) := Section(data[size..], st.prev).value;
      SectionReady(data[size..], st.prev);
      SectionWithin(data[size..][m..], SectionTables(t), n, short, Min(room, MAX_BLOCK_SIZE), lits, st.reps);
    }
  }

  /** A block of the frame whose offsets the end of the history has is the same
      block on its own. */
  lemma BlockAhead(c: WeightCode, data: seq<byte>, short: seq<byte>, room: nat, f: Frame, output: seq<byte>, st: EntropyState)
    requires Sound(c) && StateReady(st) && InFrame(f, output) && EndsWith(f.history + output[f.start..], short)
    requires CompressedBlock(c, data, f, output, st).Ok? && f.limit - (|output| - f.start) <= room
    requires BlockWithin(c, data, st, |short|)
    ensures StreamBlock(c, data, short, room, st).Some?
    ensures |output| - f.start + |StreamBlock(c, data, short, room, st).value.0| <= f.limit
  {
    hide Sound, StateReady, LiteralsOf, SequenceCount, SequencesWithin;
    StateParts(st);
    var l := LiteralsOf(c, data, st.huf).value;
    if l.consumed != |data| {
      var (n, _) := SequenceCount(data[l.consumed..]).value;
      if n > 0 {
        SequencesAhead(data[l.consumed..], l.lits, short, room, f, output, st.(huf := l.huf));
      }
    }
  }

  lemma NoSequences(data: seq<byte>, st: EntropyState, reach: nat)
    requires PrevReady(st.prev) && (|data| == 0 || (SequenceCount(data).Some? && SequenceCount(data).value.0 == 0))
    ensures SequencesWithin(data, st, reach)
  {
  }

  lemma BlockWithinOf(c: WeightCode, data: seq<byte>, short: seq<byte>, room: nat, st: EntropyState)
    requires Sound(c) && StateReady(st) && StreamBlock(c, data, short, room, st).Some?
    ensures BlockWithin(c, data, st, |short|)
  {
    hide Sound, StateReady, LiteralsOf, SequenceCount, SequencesWithin;
    StateParts(st);
    var l := LiteralsOf(c, data, st.huf).value;
    var rest := data[l.consumed..];
    if |rest| > 0 && SequenceCount(rest).value.0 > 0 {
      SequencesWithinOf(rest, l.lits, short, room, st.(huf := l.huf));
    } else {
      NoSequences(rest, st.(huf := l.huf), |short|);
    }
  }

  // ----- blocks and frames -----

  /** The offsets of one block, if it is compressed. */
  ghost predicate WithinAt(c: WeightCode, input: seq<byte>, at: nat, f: Frame, output: seq<byte>, st: EntropyState, window: nat)
    requires BlockInput(c, input, at, f, output, st)
  {
    at + 3 <= |input| && ParseBlockHeader(input[at], input[at + 1], input[at + 2]).Some? ==>
      var h := ParseBlockHeader(input[at], input[at + 1], input[at + 2]).value;
      h.kind.Compressed? && at + 3 + h.size <= |input| ==>
        BlockWithin(c, input[at + 3..at + 3 + h.size], st, Reach(window, |f.history|, |output| - f.start))
  }

  /** The offsets of a frame's blocks. */
  ghost predicate BlocksWithin(c: WeightCode, input: seq<byte>, at: nat, f: Frame, output: seq<byte>, st: EntropyState,
                               overrun: DecodeError, window: nat)
    requires BlockInput(c, input, at, f, output, st)
    decreases |input| - at
  {
    hide BlockAt, WithinAt;
    BlockAt(c, input, at, f, output, st, overrun).Ok? ==>
      var b := BlockAt(c, input, at, f, output, st, overrun).value;
      BlockAtKeeps(c, input, at, f, output, st, overrun);
      && WithinAt(c, input, at, f, output, st, window)
      && (b.last || BlocksWithin(c, input, b.at, f, b.output, b.st, overrun, window))
  }

  ghost predicate FrameWithin(c: WeightCode, d: Option<Dictionary>, header: FrameHeader, window: nat,
                              input: seq<byte>, output: seq<byte>, room: nat)
    requires Sound(c) && DictReady(d) && header.size <= |input|
  {
    hide BlocksWithin, Sound, DictReady, StateReady, InitialState;
    InitialReady(d);
    (header.contentSize.Some? && header.contentSize.value > room) ||
      BlocksWithin(c, input, header.size, Frame(|output|, FrameLimit(header, room), HistoryOf(d)), output, InitialState(d),
                   Overrun(header), window)
  }

  /** The offsets of every frame of an input, each within its own window. */
  ghost predicate FramesWithin(c: WeightCode, hash: seq<byte> -> nat, d: Option<Dictionary>,
                               parse: seq<byte> -> Result<FrameStart, DecodeError>, input: seq<byte>, output: seq<byte>, room: nat)
    requires Sound(c) && DictReady(d) && Starts(parse)
    decreases |input|
  {
    hide Sound, DictReady, FrameOf, FrameWithin;
    |input| > 0 && parse(input).Ok? ==>
      match parse(input).value
      case Skippable(n) => FramesWithin(c, hash, d, parse, input[n..], output, room)
      case Standard(h, window) =>
        && FrameWithin(c, d, h, window, input, output, room)
        && (FrameOf(c, hash, d, h, input, output, room).Ok? ==>
          var (out, at) := FrameOf(c, hash, d, h, input, output, room).value;
          FramesWithin(c, hash, d, parse, input[at..], out, room - (|out| - |output|)))
  }

  /** What streaming shows of the history is its end, as long as the reach. */
  lemma VisibleReach(dict: seq<byte>, out: seq<byte>, window: nat)
    ensures EndsWith(dict + out, Visible(dict + out, window, |out|))
    ensures |Visible(dict + out, window, |out|)| == Reach(window, |dict|, |out|)
  {
  }

  /** A frame in one shot and the same one with a bounded history. */
  ghost predicate SameFrame(c: WeightCode, input: seq<byte>, at: nat, info: StreamInfo, f: Frame, output: seq<byte>, st: EntropyState) {
    BlockInput(c, input, at, f, output, st) && f.history == info.dict && f.limit <= info.room
  }

  /** Streaming takes the next block exactly when its offsets are within reach. */
  ghost predicate TakesNext(c: WeightCode, input: seq<byte>, at: nat, info: StreamInfo, f: Frame, output: seq<byte>, st: EntropyState)
    requires SameFrame(c, input, at, info, f, output, st)
  {
    hide Sound, StateReady, StreamAt, WithinAt;
    var s := StreamAt(c, input, at, info, output[f.start..], st);
    && (s.Some? <==> WithinAt(c, input, at, f, output, st, info.window))
    && (s.Some? ==> |output| - f.start + |s.value.blk| <= f.limit)
  }

  lemma NextTaken(c: WeightCode, input: seq<byte>, at: nat, info: StreamInfo, f: Frame, output: seq<byte>,
                  st: EntropyState, overrun: DecodeError)
    requires SameFrame(c, input, at, info, f, output, st) && BlockAt(c, input, at, f, output, st, overrun).Ok?
    ensures TakesNext(c, input, at, info, f, output, st)
  {
    hide Sound, StateReady, StreamBlock, CompressedBlock, Visible, BlockWithin, Reach;
    var h := ParseBlockHeader(input[at], input[at + 1], input[at + 2]).value;
    if h.kind.Compressed? {
      var data, out := input[at + 3..at + 3 + h.size], output[f.start..];
      var visible := Visible(info.dict + out, info.window, |out|);
      VisibleReach(info.dict, out, info.window);
      if BlockWithin(c, data, st, |visible|) {
        BlockAhead(c, data, visible, info.room - |out|, f, output, st);
      }
      if StreamBlock(c, data, visible, info.room - |out|, st).Some? {
        BlockWithinOf(c, data, visible, info.room - |out|, st);
      }
    }
  }

  /** One shot accepts the blocks, and they leave the declared size. */
  ghost predicate Complete(c: WeightCode, input: seq<byte>, at: nat, info: StreamInfo, f: Frame, output: seq<byte>,
                           st: EntropyState, overrun: DecodeError)
    requires BlockInput(c, input, at, f, output, st)
  {
    hide Sound, StateReady, BlocksOf;
    var r := BlocksOf(c, input, at, f, output, st, overrun);
    r.Ok? && (info.contentSize.Some? ==> |r.value.0| - f.start == info.contentSize.value)
  }

  /** Streaming takes the blocks up to the last exactly when all their offsets are. */
  ghost predicate TakesAll(c: WeightCode, input: seq<byte>, at: nat, info: StreamInfo, f: Frame, output: seq<byte>,
                           st: EntropyState, overrun: DecodeError)
    requires SameFrame(c, input, at, info, f, output, st)
  {
    hide Sound, StateReady, StreamBlocks, BlocksWithin;
    StreamBlocks(c, input, at, info, output[f.start..], st).Some? <==> BlocksWithin(c, input, at, f, output, st, overrun, info.window)
  }

  lemma {:induction false} AllTaken(c: WeightCode, input: seq<byte>, at: nat, info: StreamInfo, f: Frame,
                                    output: seq<byte>, st: EntropyState, overrun: DecodeError)
    requires SameFrame(c, input, at, info, f, output, st) && Complete(c, input, at, info, f, output, st, overrun)
    ensures TakesAll(c, input, at, info, f, output, st, overrun)
    decreases |input| - at
  {
    hide StreamAt, BlockAt, Sound, StateReady, WithinAt;
    var b := BlockAt(c, input, at, f, output, st, overrun).value;
    BlockAtKeeps(c, input, at, f, output, st, overrun);
    NextTaken(c, input, at, info, f, output, st, overrun);
    if WithinAt(c, input, at, f, output, st, info.window) {
      StreamAtRefines(c, input, at, info, f, output, st, overrun);
      var s := StreamAt(c, input, at, info, output[f.start..], st).value;
      assert b.output[f.start..] == output[f.start..] + s.blk;
      if !b.last {
        AllTaken(c, input, b.at, info, f, b.output, b.st, overrun);
      }
    }
  }

  /** A frame: streaming accepts it exactly when one shot does within the same room
      and every offset is within the window's reach. */
  ghost predicate FrameAgrees(c: WeightCode, hash: seq<byte> -> nat, d: Option<Dictionary>, header: FrameHeader, window: nat,
                              input: seq<byte>, maxOutput: nat, room: nat, output: seq<byte>)
    requires Sound(c) && DictReady(d) && header.size <= |input|
  {
    hide Sound, DictReady, StreamFrame, FrameOf, FrameWithin;
    var s := StreamFrame(c, hash, d, header, window, input, maxOutput, room);
    var r := FrameOf(c, hash, d, header, input, output, room);
    && (s.Some? <==> r.Ok? && FrameWithin(c, d, header, window, input, output, room))
    && (s.Some? ==> r == Ok((output + s.value.0, s.value.1)))
  }

  lemma StreamFrameAccepts(c: WeightCode, hash: seq<byte> -> nat, d: Option<Dictionary>, header: FrameHeader, window: nat,
                           input: seq<byte>, maxOutput: nat, room: nat, output: seq<byte>)
    requires Sound(c) && DictReady(d) && header.size <= |input| && room <= maxOutput
    ensures FrameAgrees(c, hash, d, header, window, input, maxOutput, room, output)
  {
    hide Sound, DictReady, StateReady, InitialState, StreamBlocks, BlocksOf, BlocksWithin, Bits.LE;
    InitialReady(d);
    var info := StreamInfo(window, HistoryOf(d), room, header.contentSize);
    var f := Frame(|output|, FrameLimit(header, room), HistoryOf(d));
    assert output[f.start..] == [];
    if StreamFrame(c, hash, d, header, window, input, maxOutput, room).Some? {
      StreamFrameRefines(c, hash, d, header, window, input, maxOutput, room, output);
    }
    if FrameOf(c, hash, d, header, input, output, room).Ok? {
      AllTaken(c, input, header.size, info, f, output, InitialState(d), Overrun(header));
      if BlocksWithin(c, input, header.size, f, output, InitialState(d), Overrun(header), window) {
        StreamRefines(c, input, header.size, info, f, output, InitialState(d), Overrun(header));
        var (out, _) := StreamBlocks(c, input, header.size, info, [], InitialState(d)).value;
        assert output[..f.start] + out == output + out && (output + out)[|output|..] == out;
      }
    }
  }

  /** What is accepted of a run of frames, and what it gives. */
  ghost predicate RunAgrees(c: WeightCode, hash: seq<byte> -> nat, d: Option<Dictionary>,
                            parse: seq<byte> -> Result<FrameStart, DecodeError>, input: seq<byte>,
                            maxOutput: nat, room: nat, output: seq<byte>)
    requires Sound(c) && DictReady(d) && Starts(parse)
  {
    hide Sound, DictReady, StreamFrames, FramesOf, FramesWithin;
    var s := StreamFrames(c, hash, d, parse, input, maxOutput, room);
    var r := FramesOf(c, hash, d, parse, input, output, room);
    && (s.Some? <==> r.Ok? && FramesWithin(c, hash, d, parse, input, output, room))
    && (s.Some? ==> r == Ok(output + s.value))
  }

  lemma {:induction false} RunTaken(c: WeightCode, hash: seq<byte> -> nat, d: Option<Dictionary>,
                                    parse: seq<byte> -> Result<FrameStart, DecodeError>, input: seq<byte>,
                                    maxOutput: nat, room: nat, output: seq<byte>)
    requires Sound(c) && DictReady(d) && Starts(parse) && room <= maxOutput
    ensures RunAgrees(c, hash, d, parse, input, maxOutput, room, output)
    decreases |input|
  {
    hide Sound, DictReady, StreamFrame, FrameOf, FrameWithin, Starts;
    if |input| == 0 {
      assert output + [] == output;
    } else if parse(input).Ok? {
      Started(parse, input);
      match parse(input).value
      case Skippable(n) => RunTaken(c, hash, d, parse, input[n..], maxOutput, room, output);
      case Standard(h, window) =>
        StreamFrameAccepts(c, hash, d, h, window, input, maxOutput, room, output);
        if StreamFrame(c, hash, d, h, window, input, maxOutput, room).Some? {
          var (out, at) := StreamFrame(c, hash, d, h, window, input, maxOutput, room).value;
          RunTaken(c, hash, d, parse, input[at..], maxOutput, room - |out|, output + out);
          var rest := StreamFrames(c, hash, d, parse, input[at..], maxOutput, room - |out|);
          assert rest.Some? ==> output + out + rest.value == output + (out + rest.value);
        }
    }
  }

  lemma Started(parse: seq<byte> -> Result<FrameStart, DecodeError>, input: seq<byte>)
    requires Starts(parse) && parse(input).Ok?
    ensures match parse(input).value
      case Skippable(n) => 0 < n <= |input|
      case Standard(h, window) => 0 < h.size <= |input|
  {
  }

  /** Over any run of frames: streaming accepts an input exactly when one shot does
      within the same limit and every offset is within its frame's reach, and then
      gives the same bytes. */
  lemma StreamFramesAccept(c: WeightCode, hash: seq<byte> -> nat, d: Option<Dictionary>,
                           parse: seq<byte> -> Result<FrameStart, DecodeError>, input: seq<byte>,
                           maxOutput: nat, room: nat, output: seq<byte>)
    requires Sound(c) && DictReady(d) && Starts(parse) && room <= maxOutput
    ensures StreamFrames(c, hash, d, parse, input, maxOutput, room).Some?
      <==> FramesOf(c, hash, d, parse, input, output, room).Ok? && FramesWithin(c, hash, d, parse, input, output, room)
    ensures StreamFrames(c, hash, d, parse, input, maxOutput, room).Some? ==>
      FramesOf(c, hash, d, parse, input, output, room)
        == Ok(output + StreamFrames(c, hash, d, parse, input, maxOutput, room).value)
  {
    hide Sound, DictReady, StreamFrames, FramesOf, FramesWithin, Starts;
    RunTaken(c, hash, d, parse, input, maxOutput, room, output);
  }

  /** A decoder's answer for a run of frames: the bytes that one shot decodes to, if
      it accepts within the room and every offset is within reach, and else none. */
  ghost predicate Decodes(r: Option<seq<byte>>, c: WeightCode, hash: seq<byte> -> nat, d: Option<Dictionary>,
                          parse: seq<byte> -> Result<FrameStart, DecodeError>, input: seq<byte>, room: nat)
    requires Sound(c) && DictReady(d) && Starts(parse)
  {
    hide Sound, DictReady, FramesOf, FramesWithin;
    r == if FramesOf(c, hash, d, parse, input, [], room).Ok? && FramesWithin(c, hash, d, parse, input, [], room)
      then Some(FramesOf(c, hash, d, parse, input, [], room).value) else None
  }

  lemma StreamingDecodes(c: WeightCode, hash: seq<byte> -> nat, d: Option<Dictionary>,
                         parse: seq<byte> -> Result<FrameStart, DecodeError>, input: seq<byte>, maxOutput: nat, room: nat)
    requires Sound(c) && DictReady(d) && Starts(parse) && room <= maxOutput
    ensures Decodes(StreamFrames(c, hash, d, parse, input, maxOutput, room), c, hash, d, parse, input, room)
  {
    hide Sound, DictReady, StreamFrames, FramesOf, FramesWithin, Starts;
    RunTaken(c, hash, d, parse, input, maxOutput, room, []);
    if StreamFrames(c, hash, d, parse, input, maxOutput, room).Some? {
      var out := StreamFrames(c, hash, d, parse, input, maxOutput, room).value;
      assert [] + out == out;
    }
  }
}
