/** Decoding a frame block by block with a bounded history, and the proof that
    whatever it accepts decodes in one shot to the same bytes. */
module StreamFormat {
  import opened Arith
  import opened Wrappers
  import opened Replay
  import opened RepOffsets
  import opened SeqStream
  import opened SequenceRun
  import opened SectionDecode
  import opened TableSection
  import opened BlockFormat
  import opened FrameFormat
  import Bits

  // ----- a history may be cut off in front -----

  /** `short` is the end of `long`. */
  ghost predicate EndsWith(long: seq<byte>, short: seq<byte>) {
    |short| <= |long| && long[|long| - |short|..] == short
  }

  /** A sequence that runs over a cut-off history runs over the whole. */
  lemma ExecSeqBehind(h: seq<byte>, out: seq<byte>, short: seq<byte>, o: seq<byte>, lits: seq<byte>, lp: nat,
                      ll: nat, ml: nat, offset: nat, limit: nat, limit': nat)
    requires EndsWith(h + out, short)
    requires ExecSeq(short, o, lits, lp, ll, ml, offset, limit').Ok?
    requires |out| + |ExecSeq(short, o, lits, lp, ll, ml, offset, limit').value| <= limit
    ensures ExecSeq(h, out + o, lits, lp, ll, ml, offset, limit)
      == Ok(out + ExecSeq(short, o, lits, lp, ll, ml, offset, limit').value)
  {
    hide CopyMatch;
    var cut := (h + out)[..|h + out| - |short|];
    var o' := o + lits[lp..lp + ll];
    assert h + out == cut + short;
    assert h + (out + o + lits[lp..lp + ll]) == cut + (short + o');
    CopyMatchBehind(cut, short + o', offset, ml);
    CopyMatchRepeats(short + o', offset, ml);
    var m := CopyMatch(short + o', offset, ml);
    assert m[..|short|] == m[..|short + o'|][..|short|] == short;
    assert cut + m == h + out + m[|short|..] by { assert m == short + m[|short|..]; }
    assert (cut + m)[|h|..] == out + m[|short|..];
  }

  lemma {:induction false} ExecManyBehind(h: seq<byte>, out: seq<byte>, short: seq<byte>, st: BlockState, raws: seq<RawSeq>,
                                          lits: seq<byte>, limit: nat, limit': nat)
    requires EndsWith(h + out, short) && forall i :: 0 <= i < |raws| ==> raws[i].offsetValue > 0
    requires |st.out| <= limit' && ExecMany(Scope(short, lits, limit'), st, raws).Some?
    requires |out| + |ExecMany(Scope(short, lits, limit'), st, raws).value.out| <= limit
    ensures var r := ExecMany(Scope(short, lits, limit'), st, raws).value;
      ExecMany(Scope(h, lits, limit), st.(out := out + st.out), raws) == Some(r.(out := out + r.out))
    decreases |raws|
  {
    hide DecodeOffset, ExecSeq;
    if |raws| > 0 {
      var st' := ExecRaw(Scope(short, lits, limit'), st, raws[0]).value;
      var off := DecodeOffset(raws[0].offsetValue, raws[0].ll, st.reps).offset;
      ExecManyAppends(Scope(short, lits, limit'), st', raws[1..]);
      ExecSeqBehind(h, out, short, st.out, lits, st.lp, raws[0].ll, raws[0].ml, off, limit, limit');
      ExecManyBehind(h, out, short, st', raws[1..], lits, limit, limit');
    }
  }

  /** A section that runs over a cut-off history, appended to the whole output. */
  lemma SectionBehind(data: seq<byte>, t: SeqTables, n: nat, short: seq<byte>, room: nat, f: Frame, output: seq<byte>,
                      maxBlock: nat, lits: seq<byte>, reps: Reps)
    requires n > 0 && TablesReady(t) && f.start <= |output| && EndsWith(f.history + output[f.start..], short)
    requires SectionOf(data, t, n, Target([], 0, room, short), lits, reps).Some?
    requires |SectionOf(data, t, n, Target([], 0, room, short), lits, reps).value.0| <= maxBlock
    ensures var (blk, reps') := SectionOf(data, t, n, Target([], 0, room, short), lits, reps).value;
      SectionOf(data, t, n, Target(output, f.start, maxBlock, f.history), lits, reps) == Some((output + blk, reps'))
  {
    hide TablesReady, DecodeStream, ExecMany;
    var out := output[f.start..];
    var limit := |output| - f.start + maxBlock;
    var sc, sc' := Scope(f.history, lits, limit), Scope(short, lits, room);
    var nothing: seq<byte> := [];
    assert nothing[0..] == nothing && nothing[..0] == nothing;
    var raws := DecodeStream(Bits.Unmark(data), t, n).value;
    var st := ExecMany(sc', BlockState([], 0, reps), raws).value;
    ExecManyAppends(sc', BlockState([], 0, reps), raws);
    ExecManyBehind(f.history, out, short, BlockState([], 0, reps), raws, lits, limit, room);
    assert out + [] == out;
    var blk := st.out + lits[st.lp..];
    assert out + st.out + lits[st.lp..] == out + blk;
    assert nothing[..0] + blk == blk;
    assert SectionOf(data, t, n, Target([], 0, room, short), lits, reps) == Some((blk, st.reps));
    assert RunOf(data, t, n, sc, out, reps) == Some((out + blk, st.reps));
    assert output[..f.start] + (out + blk) == output + blk;
  }

  // ----- one block -----

  /** A block on its own, after `history`, with room for `room` bytes. */
  ghost function StreamBlock(c: WeightCode, data: seq<byte>, history: seq<byte>, room: nat, st: EntropyState)
    : (r: Option<(seq<byte>, EntropyState)>)
    requires Sound(c) && StateReady(st)
  {
    match LiteralsOf(c, data, st.huf)
    case Err(_) => None
    case Ok(l) =>
      var st' := st.(huf := l.huf);
      if l.consumed == |data| then Some((l.lits, st'))
      else
        match SequenceCount(data[l.consumed..])
        case None => None
        case Some((n, _)) =>
          if n == 0 then Some((l.lits, st'))
          else
            match SequencesPart(data[l.consumed..], l.lits, Frame(0, room, history), [], st')
            case Err(_) => None
            case Ok((out, st'')) => Some((out, st''))
  }

  lemma SequencesBehind(data: seq<byte>, lits: seq<byte>, short: seq<byte>, room: nat, f: Frame, output: seq<byte>, st: EntropyState)
    requires PrevReady(st.prev) && InFrame(f, output) && EndsWith(f.history + output[f.start..], short)
    requires SequenceCount(data).Some? && SequenceCount(data).value.0 > 0
    requires SequencesPart(data, lits, Frame(0, room, short), [], st).Ok?
    requires |output| - f.start + |SequencesPart(data, lits, Frame(0, room, short), [], st).value.0| <= f.limit
    ensures var (blk, st') := SequencesPart(data, lits, Frame(0, room, short), [], st).value;
      SequencesPart(data, lits, f, output, st) == Ok((output + blk, st'))
  {
    hide Section, SectionOf, SectionError, FieldReady, TablesReady, SequenceCount;
    var (n, size) := SequenceCount(data).value;
    var (t, m) := Section(data[size..], st.prev).value;
    SectionReady(data[size..], st.prev);
    var seqData := data[size..][m..];
    var own := Min(room, MAX_BLOCK_SIZE);
    SectionAppends(seqData, SectionTables(t), n, Target([], 0, own, short), lits, st.reps);
    SectionBehind(seqData, SectionTables(t), n, short, own, f, output,
                  Min(f.limit - (|output| - f.start), MAX_BLOCK_SIZE), lits, st.reps);
  }

  /** A block accepted on its own is the same block in the frame. */
  lemma BlockBehind(c: WeightCode, data: seq<byte>, short: seq<byte>, room: nat, f: Frame, output: seq<byte>, st: EntropyState)
    requires Sound(c) && StateReady(st) && InFrame(f, output) && EndsWith(f.history + output[f.start..], short)
    requires StreamBlock(c, data, short, room, st).Some?
    requires |output| - f.start + |StreamBlock(c, data, short, room, st).value.0| <= f.limit
    ensures var (blk, st') := StreamBlock(c, data, short, room, st).value;
      CompressedBlock(c, data, f, output, st) == Ok((output + blk, st'))
  {
    hide Sound, StateReady, LiteralsOf, SequenceCount;
    StateParts(st);
    var l := LiteralsOf(c, data, st.huf).value;
    if l.consumed != |data| {
      var (n, _) := SequenceCount(data[l.consumed..]).value;
      if n > 0 {
        SequencesBehind(data[l.consumed..], l.lits, short, room, f, output, st.(huf := l.huf));
      }
    }
  }

  lemma StateParts(st: EntropyState)
    requires StateReady(st)
    ensures PrevReady(st.prev) && (st.huf.Some? ==> UsableTable(st.huf.value))
  {
  }

  lemma StreamBlockReady(c: WeightCode, data: seq<byte>, history: seq<byte>, room: nat, st: EntropyState)
    requires Sound(c) && StateReady(st) && StreamBlock(c, data, history, room, st).Some?
    ensures StateReady(StreamBlock(c, data, history, room, st).value.1)
  {
    hide Sound, LiteralsOf, SequenceCount, UsableTable, PrevReady, SequencesPart;
    var l := LiteralsOf(c, data, st.huf).value;
    if l.consumed != |data| && SequenceCount(data[l.consumed..]).value.0 > 0 {
      SequencesAppend(data[l.consumed..], l.lits, Frame(0, room, history), [], st.(huf := l.huf));
    }
  }

  // ----- a frame, block by block -----

  /** The window, the dictionary's content, the output still allowed and the
      declared size. */
  datatype StreamInfo = StreamInfo(window: nat, dict: seq<byte>, room: nat, contentSize: Option<nat>)

  /** The bytes a block may refer to: everything until a window of output exists,
      then the last window. */
  function Visible(s: seq<byte>, window: nat, produced: nat): (v: seq<byte>)
    ensures |v| <= |s| && s[|s| - |v|..] == v
  {
    if produced >= window && |s| > window then s[|s| - window..] else s
  }

  /** It is the end, of this length. */
  lemma VisibleEnd(all: seq<byte>, window: nat, produced: nat)
    ensures var v := Visible(all, window, produced);
      && |v| == (if produced < window then |all| else Min(window, |all|))
      && v == all[|all| - |v|..]
  {
  }

  /** One block's bytes, the position after it and the state. */
  datatype StreamResult = StreamResult(blk: seq<byte>, at: nat, st: EntropyState, last: bool)

  ghost function StreamAt(c: WeightCode, input: seq<byte>, at: nat, info: StreamInfo, out: seq<byte>, st: EntropyState)
    : (r: Option<StreamResult>)
    requires Sound(c) && StateReady(st) && at <= |input| && |out| <= info.room
    ensures r.Some? ==> at + 3 <= r.value.at <= |input| && StateReady(r.value.st)
  {
    hide StreamBlock, StateReady, Sound;
    if at + 3 > |input| then None
    else
      match ParseBlockHeader(input[at], input[at + 1], input[at + 2])
      case None => None
      case Some(h) =>
        var from := at + 3;
        if h.size > MAX_BLOCK_SIZE && !h.kind.Compressed? then None
        else match h.kind
          case Raw =>
            if from + h.size > |input| then None
            else Some(StreamResult(input[from..from + h.size], from + h.size, st, h.last))
          case Rle =>
            if from >= |input| then None
            else Some(StreamResult(Fill(input[from], h.size), from + 1, st, h.last))
          case Compressed =>
            if from + h.size > |input| then None
            else
              var visible := Visible(info.dict + out, info.window, |out|);
              match StreamBlock(c, input[from..from + h.size], visible, info.room - |out|, st)
              case None => None
              case Some((blk, st')) =>
                StreamBlockReady(c, input[from..from + h.size], visible, info.room - |out|, st);
                Some(StreamResult(blk, from + h.size, st', h.last))
  }

  /** A raw or repeated block of a stream is the bytes after its header, or as many
      times the one byte. */
  lemma StreamPlainBlock(c: WeightCode, input: seq<byte>, at: nat, info: StreamInfo, out: seq<byte>, st: EntropyState)
    requires Sound(c) && StateReady(st) && at + 3 <= |input| && |out| <= info.room && BlockWord(input, at) / 2 % 4 < 2
    ensures var r, w := StreamAt(c, input, at, info, out, st), BlockWord(input, at);
      && (r.Some? <==> w / 8 <= 131072 && at + 3 + (if w / 2 % 4 == 0 then w / 8 else 1) <= |input|)
      && (r.Some? ==> r.value.st == st && PlainBytes(r.value.blk, r.value.at, r.value.last, input, at))
  {
    hide Sound, StateReady, StreamBlock;
  }

  /** Blocks up to the last one; the output may not outgrow its room, and ends with
      the declared size. */
  ghost function StreamBlocks(c: WeightCode, input: seq<byte>, at: nat, info: StreamInfo, out: seq<byte>, st: EntropyState)
    : (r: Option<(seq<byte>, nat)>)
    requires Sound(c) && StateReady(st) && at <= |input| && |out| <= info.room
    ensures r.Some? ==> out <= r.value.0 && |r.value.0| <= info.room && at <= r.value.1 <= |input|
    ensures r.Some? ==> info.contentSize.Some? ==> |r.value.0| == info.contentSize.value
    decreases |input| - at
  {
    hide StreamAt, StateReady, Sound;
    match StreamAt(c, input, at, info, out, st)
    case None => None
    case Some(b) =>
      var all := out + b.blk;
      if |all| > info.room then None
      else if !b.last then StreamBlocks(c, input, b.at, info, all, b.st)
      else if info.contentSize.Some? && |all| != info.contentSize.value then None
      else Some((all, b.at))
  }

  /** One accepted block, in one shot. */
  lemma StreamAtRefines(c: WeightCode, input: seq<byte>, at: nat, info: StreamInfo, f: Frame, output: seq<byte>,
                        st: EntropyState, overrun: DecodeError)
    requires BlockInput(c, input, at, f, output, st) && f.history == info.dict && |output| - f.start <= info.room
    requires StreamAt(c, input, at, info, output[f.start..], st).Some?
    requires |output| - f.start + |StreamAt(c, input, at, info, output[f.start..], st).value.blk| <= f.limit
    ensures var b := StreamAt(c, input, at, info, output[f.start..], st).value;
      BlockAt(c, input, at, f, output, st, overrun) == Ok(BlockResult(output + b.blk, b.at, b.st, b.last))
  {
    hide Sound, StateReady, StreamBlock, CompressedBlock, Visible;
    var h := ParseBlockHeader(input[at], input[at + 1], input[at + 2]).value;
    if h.kind.Compressed? {
      var out := output[f.start..];
      var visible := Visible(info.dict + out, info.window, |out|);
      BlockBehind(c, input[at + 3..at + 3 + h.size], visible, info.room - |out|, f, output, st);
    }
  }

  /** Streaming refines one shot: blocks accepted with the bounded history are the
      same blocks, to the same bytes, with the whole frame as history. */
  lemma {:induction false} StreamRefines(c: WeightCode, input: seq<byte>, at: nat, info: StreamInfo, f: Frame,
                                         output: seq<byte>, st: EntropyState, overrun: DecodeError)
    requires BlockInput(c, input, at, f, output, st) && f.history == info.dict && |output| - f.start <= info.room
    requires StreamBlocks(c, input, at, info, output[f.start..], st).Some?
    requires |StreamBlocks(c, input, at, info, output[f.start..], st).value.0| <= f.limit
    ensures var (out, end) := StreamBlocks(c, input, at, info, output[f.start..], st).value;
      BlocksOf(c, input, at, f, output, st, overrun) == Ok((output[..f.start] + out, end))
    decreases |input| - at
  {
    hide StreamAt, BlockAt, Sound, StateReady;
    var out := output[f.start..];
    var b := StreamAt(c, input, at, info, out, st).value;
    StreamAtRefines(c, input, at, info, f, output, st, overrun);
    BlockAtKeeps(c, input, at, f, output, st, overrun);
    var next := output + b.blk;
    assert next[f.start..] == out + b.blk && next[..f.start] == output[..f.start];
    if !b.last {
      StreamRefines(c, input, b.at, info, f, next, b.st, overrun);
    } else {
      assert next == output[..f.start] + (out + b.blk);
    }
  }

  /** A frame as the streaming decoder takes it: a declared size is held against the
      whole limit, the output against what is left of it. */
  ghost function StreamFrame(c: WeightCode, hash: seq<byte> -> nat, d: Option<Dictionary>, header: FrameHeader, window: nat,
                             input: seq<byte>, maxOutput: nat, room: nat)
    : (r: Option<(seq<byte>, nat)>)
    requires Sound(c) && DictReady(d) && header.size <= |input|
    ensures FrameTaken(r, header, input, room)
  {
    hide StreamBlocks, Sound, DictReady, StateReady, InitialState;
    if header.contentSize.Some? && header.contentSize.value > maxOutput then None
    else
      InitialReady(d);
      match StreamBlocks(c, input, header.size, StreamInfo(window, HistoryOf(d), room, header.contentSize), [], InitialState(d))
      case None => None
      case Some((out, at)) =>
        if CheckSum(hash, header, out, input, at).Ok? then Some((out, CheckSum(hash, header, out, input, at).value)) else None
  }

  ghost predicate FrameTaken(r: Option<(seq<byte>, nat)>, header: FrameHeader, input: seq<byte>, room: nat) {
    r.Some? ==>
      && |r.value.0| <= room && header.size <= r.value.1 <= |input|
      && (header.contentSize.Some? ==> |r.value.0| == header.contentSize.value)
  }

  /** Any frame it accepts decodes in one shot, appended to any output and with no
      more room, to the same bytes, and takes the same input. */
  lemma StreamFrameRefines(c: WeightCode, hash: seq<byte> -> nat, d: Option<Dictionary>, header: FrameHeader, window: nat,
                           input: seq<byte>, maxOutput: nat, room: nat, output: seq<byte>)
    requires Sound(c) && DictReady(d) && header.size <= |input|
    requires StreamFrame(c, hash, d, header, window, input, maxOutput, room).Some?
    ensures var (out, at) := StreamFrame(c, hash, d, header, window, input, maxOutput, room).value;
      FrameOf(c, hash, d, header, input, output, room) == Ok((output + out, at))
  {
    hide Sound, DictReady, StateReady, InitialState, StreamBlocks, BlocksOf, Bits.LE;
    InitialReady(d);
    var info := StreamInfo(window, HistoryOf(d), room, header.contentSize);
    var f := Frame(|output|, FrameLimit(header, room), HistoryOf(d));
    assert output[f.start..] == [] && output[..f.start] == output;
    var (out, at) := StreamBlocks(c, input, header.size, info, [], InitialState(d)).value;
    StreamRefines(c, input, header.size, info, f, output, InitialState(d), Overrun(header));
    assert (output + out)[|output|..] == out;
  }

  /** The frames of an input, one after the other on one decoder, and what is left
      of the limit. */
  ghost function StreamFrames(c: WeightCode, hash: seq<byte> -> nat, d: Option<Dictionary>,
                              parse: seq<byte> -> Result<FrameStart, DecodeError>, input: seq<byte>, maxOutput: nat, room: nat)
    : (r: Option<seq<byte>>)
    requires Sound(c) && DictReady(d) && Starts(parse)
    decreases |input|
  {
    hide Sound, DictReady, StreamFrame;
    if |input| == 0 then Some([])
    else
      match parse(input)
      case Err(_) => None
      case Ok(Skippable(n)) => StreamFrames(c, hash, d, parse, input[n..], maxOutput, room)
      case Ok(Standard(h, window)) =>
        match StreamFrame(c, hash, d, h, window, input, maxOutput, room)
        case None => None
        case Some((out, at)) =>
          match StreamFrames(c, hash, d, parse, input[at..], maxOutput, room - |out|)
          case None => None
          case Some(rest) => Some(out + rest)
  }

  /** Streaming refines one shot over any run of frames: an input that is accepted
      decodes in one shot to the same bytes, within the same limit. */
  lemma {:induction false} StreamFramesRefine(c: WeightCode, hash: seq<byte> -> nat, d: Option<Dictionary>,
                                              parse: seq<byte> -> Result<FrameStart, DecodeError>, input: seq<byte>,
                                              maxOutput: nat, room: nat, output: seq<byte>)
    requires Sound(c) && DictReady(d) && Starts(parse)
    requires StreamFrames(c, hash, d, parse, input, maxOutput, room).Some?
    ensures FramesOf(c, hash, d, parse, input, output, room)
      == Ok(output + StreamFrames(c, hash, d, parse, input, maxOutput, room).value)
    decreases |input|
  {
    hide Sound, DictReady, StreamFrame, FrameOf;
    if |input| == 0 {
      assert output + [] == output;
    } else {
      match parse(input).value
      case Skippable(n) => StreamFramesRefine(c, hash, d, parse, input[n..], maxOutput, room, output);
      case Standard(h, window) =>
        var (out, at) := StreamFrame(c, hash, d, h, window, input, maxOutput, room).value;
        StreamFrameRefines(c, hash, d, h, window, input, maxOutput, room, output);
        StreamFramesRefine(c, hash, d, parse, input[at..], maxOutput, room - |out|, output + out);
        var rest := StreamFrames(c, hash, d, parse, input[at..], maxOutput, room - |out|).value;
        assert output + out + rest == output + (out + rest);
    }
  }
}
