/** The streaming decoder's frame state: its history of one to two windows, its
    counters and its states, proved to show each block exactly the window. */
module StreamDecoder {
  import opened Arith
  import opened Wrappers
  import opened Executor
  import opened RepOffsets
  import opened SeqStream
  import opened TableSection
  import opened DecodeTables
  import opened BlockFormat
  import opened FrameFormat
  import opened StreamFormat
  import StreamReach
  import opened DecodeContext
  import opened FrameDecode
  import Huffman
  import SectionDecode
  import SeqReader
  import Bits

  datatype State = FrameStart | BlockStart | BlockData(header: BlockHeader) | CheckSumField | Failed

  // ----- the history -----

  /** What the history holds of everything so far: all of it until a window of
      output exists, then at least the last window. */
  ghost predicate Holds(history: seq<byte>, all: seq<byte>, window: nat, produced: nat) {
    && EndsWith(all, history)
    && (produced < window ==> history == all)
    && (produced >= window ==> |history| >= Min(window, |all|))
  }

  /** The most the history can hold. */
  function Most(window: nat, dictLen: nat): nat {
    Max(2 * window, dictLen + window) + MAX_BLOCK_SIZE
  }

  lemma MostIs(dictLen: nat)
    ensures Most(MAX_WINDOW_SIZE, dictLen) == Max(0x1000_0000, dictLen + 0x800_0000) + 131072
  {
  }

  lemma VisibleIs(history: seq<byte>, all: seq<byte>, window: nat, produced: nat)
    requires Holds(history, all, window, produced) && produced <= |all|
    ensures Visible(history, window, produced) == Visible(all, window, produced)
  {
    if produced >= window {
      if |all| > window {
        assert all[|all| - window..] == all[|all| - |history|..][|history| - window..];
      }
    }
  }

  /** The bytes kept, never more than two windows, or than the dictionary and a
      window. */
  class History {
    var bytes: seq<byte>
    var capacity: nat

    constructor ()
      ensures bytes == [] && capacity == 0
    {
      bytes, capacity := [], 0;
    }

    /** Starts over with `content`; too little room is at least doubled. */
    method Restart(content: seq<byte>)
      modifies this
      ensures bytes == content && |content| <= capacity
      ensures capacity == if |content| <= old(capacity) then old(capacity) else Max(2 * old(capacity), |content|)
      ensures old(capacity) == 0 ==> capacity == |content|
    {
      if |content| > capacity {
        capacity := Max(2 * capacity, |content|);
      }
      bytes := content;
    }

    /** Appends a block. The history keeps up to two windows and then drops the
        older one, and its room grows to no more than it can need. */
    method Append(blk: seq<byte>, window: nat, produced: nat, dictLen: nat, ghost all: seq<byte>)
      requires |blk| <= MAX_BLOCK_SIZE && |blk| <= produced && |all| + |blk| == dictLen + produced && 0 < window
      requires Holds(bytes, all, window, produced - |blk|) && |bytes| <= capacity
      requires |bytes| <= Max(2 * window, dictLen + window)
      modifies this
      ensures Holds(bytes, all + blk, window, produced) && |bytes| <= capacity
      ensures |bytes| <= Max(2 * window, dictLen + window) && old(capacity) <= capacity <= Max(old(capacity), Most(window, dictLen))
    {
      var needed := |bytes| + |blk|;
      if needed > capacity {
        capacity := Max(Min(2 * capacity, Most(window, dictLen)), needed);
      }
      ghost var before := bytes;
      bytes := bytes + blk;
      AppendEnds(all, before, blk);
      if produced >= window && |bytes| > 2 * window {
        var start := |bytes| - window;
        CutEnds(all + blk, bytes, start);
        bytes := bytes[start..];
      }
    }
  }

  lemma AppendEnds(all: seq<byte>, history: seq<byte>, blk: seq<byte>)
    requires EndsWith(all, history)
    ensures EndsWith(all + blk, history + blk)
  {
    assert all == all[..|all| - |history|] + history;
  }

  lemma CutEnds(all: seq<byte>, history: seq<byte>, start: nat)
    requires EndsWith(all, history) && start <= |history|
    ensures EndsWith(all, history[start..])
  {
    assert all[|all| - |history|..][start..] == all[|all| - (|history| - start)..];
  }

  // ----- block sizes -----

  /** No block is larger than the format allows. */
  lemma BlockSize(c: WeightCode, data: seq<byte>, history: seq<byte>, room: nat, st: EntropyState)
    requires Sound(c) && StateReady(st) && StreamBlock(c, data, history, room, st).Some?
    ensures |StreamBlock(c, data, history, room, st).value.0| <= MAX_BLOCK_SIZE
  {
    hide Sound, PrevReady, UsableTable, LiteralsOf, SequenceCount, SequencesPart;
    LiteralsSize(c, data, st.huf);
    var l := LiteralsOf(c, data, st.huf).value;
    if l.consumed != |data| && SequenceCount(data[l.consumed..]).value.0 > 0 {
      SequencesSize(data[l.consumed..], l.lits, history, room, st.(huf := l.huf));
    }
  }

  lemma LiteralsSize(c: WeightCode, data: seq<byte>, huf: Option<Huffman.HufTable>)
    requires Sound(c) && (huf.Some? ==> UsableTable(huf.value)) && LiteralsOf(c, data, huf).Ok?
    ensures |LiteralsOf(c, data, huf).value.lits| <= MAX_BLOCK_SIZE
  {
    hide Sound, UsableTable, HuffmanLiterals, SectionTable, RawHeader, CompressedHeader;
    if data[0] % 4 >= 2 {
      var h := CompressedHeader(data).value;
      var body := data[h.size..h.size + h.comp];
      var (t, n) := SectionTable(c, data[0] % 4 == 3, body, huf).value;
      TableIsValid(t);
      LiteralCount(t, h.streams, body[n..], h.regen);
    }
  }

  lemma TableIsValid(t: Huffman.HufTable)
    requires UsableTable(t)
    ensures t.Valid()
  {
  }

  lemma SequencesSize(data: seq<byte>, lits: seq<byte>, history: seq<byte>, room: nat, st: EntropyState)
    requires PrevReady(st.prev) && SequenceCount(data).Some? && SequenceCount(data).value.0 > 0
    requires SequencesPart(data, lits, Frame(0, room, history), [], st).Ok?
    ensures |SequencesPart(data, lits, Frame(0, room, history), [], st).value.0| <= MAX_BLOCK_SIZE
  {
    hide Section, SectionDecode.SectionOf, SectionDecode.SectionError, FieldReady, TablesReady, SequenceCount;
    var (n, size) := SequenceCount(data).value;
    var (t, m) := Section(data[size..], st.prev).value;
    SectionReady(data[size..], st.prev);
    SectionDecode.SectionAppends(data[size..][m..], SectionTables(t), n,
                                 SectionDecode.Target([], 0, Min(room, MAX_BLOCK_SIZE), history), lits, st.reps);
  }

  // ----- the decoder -----

  /** A compressed block on its own, after the history it is shown. */
  method DecodeAlone(ws: BlockDecodeWorkspace, t: SequenceDecodeTables, reps: Reps, data: seq<byte>, history: seq<byte>, room: nat)
    returns (r: Option<(seq<byte>, Reps)>)
    requires Between(ws, t) && SeqReader.Addressable(data)
    modifies ws, t
    ensures ws.Valid() && t.Valid() && Sound(ws.code) && old(StateReady(FrameDecode.StateOf(ws, t, reps)))
    ensures match StreamBlock(ws.code, data, history, room, old(FrameDecode.StateOf(ws, t, reps)))
      case None => r == None
      case Some((blk, st)) => r == Some((blk, st.reps)) && st == FrameDecode.StateOf(ws, t, st.reps) && Between(ws, t)
  {
    hide LiteralsOf, SequencesPart, PrevReady, UsableTable, Sound, SequenceCount,
         BlockDecodeWorkspace.Valid, BlockDecodeWorkspace.LiveHuffman, SequenceDecodeTables.Valid, SequenceDecodeTables.Prev;
    var l := ws.DecodeLiterals(data);
    if l.Err? {
      return None;
    }
    var (consumed, at) := l.value;
    var lits := Resolve(at, data, ws.literalBuf);
    if consumed == |data| {
      return Some((lits.AsSlice(), reps));
    }
    var count := SequenceCount(data[consumed..]);
    if count.None? {
      return None;
    }
    if count.value.0 == 0 {
      return Some((lits.AsSlice(), reps));
    }
    var done := DecodeSequences(ws, data[consumed..], lits, Frame(0, room, history), [], t, reps);
    return if done.Ok? then Some(done.value) else None;
  }

  /** The entropy state a frame begins with: the dictionary's, or the format's. */
  method BeginEntropy(ws: BlockDecodeWorkspace, t: SequenceDecodeTables, d: Option<Dictionary>) returns (reps: Reps)
    requires ws.Valid() && t.Valid() && DictReady(d)
    modifies ws`seqTableCacheTablesCurrent, ws`hufTable, ws`hufValid, ws`hufPairsValid, ws`hufLastWeightsValid,
             ws`hufLastHeaderValid, t
    ensures ws.Valid() && t.Valid() && Between(ws, t) && FrameDecode.StateOf(ws, t, reps) == InitialState(d)
  {
    hide BlockDecodeWorkspace.Valid, SequenceDecodeTables.Valid, FieldReady, UsableTable;
    ws.SeqTablesReplaced();
    ws.ResetHuffmanState();
    if d.Some? {
      reps := d.value.reps;
      LoadDict(t, d.value);
      if d.value.huf.Some? {
        ws.ReplaceHuffman(d.value.huf.value);
      }
    } else {
      reps := INITIAL;
      t.ResetDefault();
    }
  }

  /** The tables of whatever came before are dropped. */
  method DropEntropy(ws: BlockDecodeWorkspace, t: SequenceDecodeTables)
    requires ws.Valid() && t.Valid()
    modifies ws`seqTableCacheTablesCurrent, ws`hufValid, t
    ensures ws.Valid() && t.Valid()
  {
    hide BlockDecodeWorkspace.Valid, SequenceDecodeTables.Valid;
    t.ResetDefault();
    ws.SeqTablesReplaced();
    ws.ResetHuffmanState();
  }

  /** What comes after bytes already out. */
  ghost function Joined(out: seq<byte>, rest: Option<seq<byte>>): Option<seq<byte>> {
    match rest case None => None case Some(more) => Some(out + more)
  }

  lemma JoinedMore(out: seq<byte>, frame: seq<byte>, rest: Option<seq<byte>>)
    ensures Joined(out, Joined(frame, rest)) == Joined(out + frame, rest)
    ensures Joined(out, Some([])) == Some(out) && Joined([], rest) == rest
  {
    assert out + [] == out;
    if rest.Some? {
      assert out + (frame + rest.value) == out + frame + rest.value;
      assert [] + rest.value == rest.value;
    }
  }

  /** The frames of an input, after its first start. */
  lemma FramesStep(c: WeightCode, hash: seq<byte> -> nat, d: Option<Dictionary>, parse: seq<byte> -> Result<FrameStart, DecodeError>,
                   input: seq<byte>, maxOutput: nat, room: nat, out: seq<byte>)
    requires Sound(c) && DictReady(d) && Starts(parse)
    ensures Joined(out, StreamFrames(c, hash, d, parse, input, maxOutput, room)) ==
      if |input| == 0 then Some(out)
      else
        match parse(input)
        case Err(_) => None
        case Ok(Skippable(n)) => Joined(out, StreamFrames(c, hash, d, parse, input[n..], maxOutput, room))
        case Ok(Standard(h, window)) =>
          match StreamFrame(c, hash, d, h, window, input, maxOutput, room)
          case None => None
          case Some((frame, at)) =>
            Joined(out + frame, StreamFrames(c, hash, d, parse, input[at..], maxOutput, room - |frame|))
  {
    hide Sound, DictReady, StreamFrame, Joined;
    JoinedMore(out, [], None);
    if |input| > 0 && parse(input).Ok? && parse(input).value.Standard? {
      var (h, window) := (parse(input).value.header, parse(input).value.window);
      var frame := StreamFrame(c, hash, d, h, window, input, maxOutput, room);
      if frame.Some? {
        var rest := StreamFrames(c, hash, d, parse, input[frame.value.1..], maxOutput, room - |frame.value.0|);
        assert StreamFrames(c, hash, d, parse, input, maxOutput, room) == Joined(frame.value.0, rest) by { JoinedIs(frame.value.0, rest); }
        JoinedMore(out, frame.value.0, rest);
      }
    }
    JoinedIs(out, None);
  }

  lemma JoinedIs(out: seq<byte>, rest: Option<seq<byte>>)
    ensures Joined(out, rest) == match rest case None => None case Some(more) => Some(out + more)
    ensures Joined(out, None) == None
  {
  }

  lemma FrameTakes(c: WeightCode, hash: seq<byte> -> nat, d: Option<Dictionary>, header: FrameHeader, window: nat,
                   input: seq<byte>, maxOutput: nat, room: nat)
    requires Sound(c) && DictReady(d) && header.size <= |input|
    ensures match StreamFrame(c, hash, d, header, window, input, maxOutput, room)
      case None => true
      case Some((frame, at)) => |frame| <= room && header.size <= at <= |input|
  {
    hide Sound, DictReady, StreamFrame;
  }

  lemma MostGrows(capacity: nat, before: nat, first: nat, window: nat, dictLen: nat)
    requires capacity <= Max(before, Most(window, dictLen)) && before <= Max(first, Most(MAX_WINDOW_SIZE, dictLen))
    requires window <= MAX_WINDOW_SIZE
    ensures capacity <= Max(first, Most(MAX_WINDOW_SIZE, dictLen))
  {
  }

  lemma StartTakes(parse: seq<byte> -> Result<FrameStart, DecodeError>, input: seq<byte>)
    requires Starts(parse) && parse(input).Ok?
    ensures match parse(input).value
      case Skippable(n) => 0 < n <= |input|
      case Standard(h, window) => 0 < h.size <= |input| && window <= MAX_WINDOW_SIZE
  {
  }

  /** A frame as a decoder with `room` left takes it, step by step. */
  lemma FrameIs(c: WeightCode, hash: seq<byte> -> nat, d: Option<Dictionary>, header: FrameHeader, window: nat,
                input: seq<byte>, maxOutput: nat, room: nat)
    requires Sound(c) && DictReady(d) && StateReady(InitialState(d)) && header.size <= |input|
    ensures StreamFrame(c, hash, d, header, window, input, maxOutput, room) ==
      if header.contentSize.Some? && header.contentSize.value > maxOutput then None
      else
        match StreamBlocks(c, input, header.size, StreamInfo(window, HistoryOf(d), room, header.contentSize), [], InitialState(d))
        case None => None
        case Some((out, at)) =>
          match CheckSum(hash, header, out, input, at) case Err(_) => None case Ok(end) => Some((out, end))
  {
    hide Sound, DictReady, StateReady, StreamBlocks, InitialState;
  }

  class FrameDecoder {
    const code: WeightCode
    const hash: seq<byte> -> nat
    const dict: Option<Dictionary>
    const maxOutput: nat
    const ws: BlockDecodeWorkspace
    const tables: SequenceDecodeTables
    const history: History
    var state: State
    var outputBuf: seq<byte>
    var reps: Reps
    var hashed: seq<byte>
    var checksum: bool
    var contentSize: Option<nat>
    var window: nat
    var bytesOutput: nat
    var frameBytes: nat

    /** The frame's output so far, and the history's room before the frame. */
    ghost var frameOut: seq<byte>
    ghost var roomBefore: nat

    ghost predicate Valid()
      reads this, ws, tables, history
    {
      && ws.Valid() && tables.Valid() && ws.code == code && DictReady(dict)
      && bytesOutput >= frameBytes && RoomKept()
    }

    /** The history has no room yet, or enough for the dictionary. */
    ghost predicate RoomKept()
      reads history`capacity
    {
      history.capacity == 0 || |HistoryOf(dict)| <= history.capacity
    }

    /** The history's room is what it was before the frame, or what the frame can
        need at most. */
    ghost predicate RoomOk()
      reads this`roomBefore, this`window, history`capacity
    {
      RoomKept() && history.capacity <= Max(roomBefore, Most(window, |HistoryOf(dict)|))
    }

    ghost function Info(): StreamInfo
      reads this`window, this`bytesOutput, this`frameBytes, this`contentSize
    {
      StreamInfo(window, HistoryOf(dict), Max(maxOutput + frameBytes, bytesOutput) - bytesOutput, contentSize)
    }

    /** Inside a frame: the history shows each block what it may refer to, and
        stays within its bound. */
    ghost predicate InFrame()
      reads this, ws, tables, history
    {
      && Valid() && Between(ws, tables)
      && frameBytes == |frameOut| && bytesOutput <= maxOutput
      && (checksum ==> hashed == frameOut)
      && HistoryOk() && RoomOk()
    }

    ghost predicate HistoryOk()
      reads this`window, this`frameOut, history
    {
      && |history.bytes| <= history.capacity && |HistoryOf(dict)| <= history.capacity
      && (if window > 0 then Holds(history.bytes, HistoryOf(dict) + frameOut, window, |frameOut|)
          else history.bytes == HistoryOf(dict))
      && |history.bytes| <= Max(2 * window, |HistoryOf(dict)| + window)
    }

    /** The state that the frame's blocks so far have led to. */
    ghost function Entropy(): EntropyState
      reads this, ws, tables
    {
      FrameDecode.StateOf(ws, tables, reps)
    }

    constructor (c: WeightCode, h: seq<byte> -> nat, d: Option<Dictionary>, limit: nat)
      requires Sound(c) && DictReady(d)
      ensures Valid() && state == FrameStart && bytesOutput == 0
      ensures code == c && hash == h && dict == d && maxOutput == limit
      ensures fresh(ws) && fresh(tables) && fresh(history) && history.capacity == 0
    {
      hide Sound, DictReady, BlockDecodeWorkspace.Valid, SequenceDecodeTables.Valid;
      var w := new BlockDecodeWorkspace(c);
      var t := new SequenceDecodeTables();
      var hist := new History();
      code, hash, dict, maxOutput := c, h, d, limit;
      ws, tables, history := w, t, hist;
      state, outputBuf, reps, hashed, checksum := FrameStart, [], INITIAL, [], false;
      contentSize, window, bytesOutput, frameBytes, frameOut, roomBefore := None, 0, 0, 0, [], 0;
    }

    /** A frame begins: its tables, offsets and history are the dictionary's, or
        the format's. */
    method BeginFrame(header: FrameHeader, windowSize: nat)
      requires Valid() && state == FrameStart && bytesOutput <= maxOutput
      modifies this, ws, tables, history
      ensures Valid() && bytesOutput == old(bytesOutput) && RoomOk() && roomBefore == old(history.capacity)
      ensures state == Failed ==> history.capacity == roomBefore
      ensures state == if header.contentSize.Some? && header.contentSize.value > maxOutput then Failed else BlockStart
      ensures state == BlockStart ==>
        && InFrame() && frameOut == [] && Entropy() == InitialState(dict)
        && checksum == header.checksum
        && Info() == StreamInfo(windowSize, HistoryOf(dict), maxOutput - bytesOutput, header.contentSize)
    {
      hide *;
      Parts();
      roomBefore := history.capacity;
      if header.contentSize.Some? && header.contentSize.value > maxOutput {
        state := Failed;
        NotBegun();
        return;
      }
      window, contentSize, checksum := windowSize, header.contentSize, header.checksum;
      frameBytes, frameOut, hashed := 0, [], [];
      history.Restart(HistoryOf(dict));
      reps := BeginEntropy(ws, tables, dict);
      state := BlockStart;
      Begun();
    }

    lemma Parts()
      requires Valid()
      ensures ws.Valid() && tables.Valid() && ws.code == code && DictReady(dict) && bytesOutput >= frameBytes && RoomKept()
      ensures forall content :: content == HistoryOf(dict) && |content| > history.capacity ==> history.capacity == 0
    {
      hide BlockDecodeWorkspace.Valid, SequenceDecodeTables.Valid, DictReady, HistoryOf;
    }

    lemma NotBegun()
      requires ws.Valid() && tables.Valid() && ws.code == code && DictReady(dict) && bytesOutput >= frameBytes && RoomKept()
      requires roomBefore == history.capacity
      ensures Valid() && RoomOk()
    {
      hide BlockDecodeWorkspace.Valid, SequenceDecodeTables.Valid, DictReady, HistoryOf;
    }

    lemma Begun()
      requires Between(ws, tables) && ws.code == code && DictReady(dict) && bytesOutput <= maxOutput
      requires frameBytes == 0 && frameOut == [] && hashed == []
      requires history.bytes == HistoryOf(dict) && |history.bytes| <= history.capacity
      requires history.capacity == roomBefore || (history.capacity == |HistoryOf(dict)| && roomBefore == 0)
      ensures Valid() && InFrame() && RoomOk()
      ensures Info() == StreamInfo(window, HistoryOf(dict), maxOutput - bytesOutput, contentSize)
      ensures Entropy() == FrameDecode.StateOf(ws, tables, reps)
    {
      hide BlockDecodeWorkspace.Valid, SequenceDecodeTables.Valid, DictReady, HistoryOf, PrevReady, BlockDecodeWorkspace.InSync;
      assert HistoryOf(dict) + [] == HistoryOf(dict);
    }

    /** The bytes a block may refer to, cut from the history. */
    function HistoryShown(): seq<byte>
      reads this, history
    {
      var start := if frameBytes >= window && |history.bytes| > window then |history.bytes| - window else 0;
      history.bytes[start..]
    }

    lemma ShownIsVisible()
      requires InFrame()
      ensures HistoryShown() == Visible(HistoryOf(dict) + frameOut, window, frameBytes)
    {
      hide Valid, Between, Holds;
      if window > 0 {
        VisibleIs(history.bytes, HistoryOf(dict) + frameOut, window, frameBytes);
      }
    }

    /** They are the end of the dictionary and the frame's output: all of it while
        less than a window is out, then a window. */
    lemma ShownIsEnd()
      requires InFrame()
      ensures var all, shown := HistoryOf(dict) + frameOut, HistoryShown();
        && |shown| == (if |frameOut| < window then |all| else Min(window, |all|))
        && shown == all[|all| - |shown|..]
    {
      hide *;
      ShownIsVisible();
      OutputMeasured();
      VisibleEnd(HistoryOf(dict) + frameOut, window, frameBytes);
    }

    lemma OutputMeasured()
      requires InFrame()
      ensures frameBytes == |frameOut|
    {
      hide Valid, Between, HistoryOk, RoomOk;
    }

    /** Reads a block's header at `at`. */
    method ReadBlockHeader(input: seq<byte>, at: nat)
      requires state == BlockStart && at <= |input|
      modifies this`state
      ensures var h := if at + 3 <= |input| then ParseBlockHeader(input[at], input[at + 1], input[at + 2]) else None;
        state == if h.None? || (h.value.size > MAX_BLOCK_SIZE && !h.value.kind.Compressed?) then Failed else BlockData(h.value)
    {
      if at + 3 > |input| {
        state := Failed;
        return;
      }
      var header := ParseBlockHeader(input[at], input[at + 1], input[at + 2]);
      if header.None? || (header.value.size > MAX_BLOCK_SIZE && !header.value.kind.Compressed?) {
        state := Failed;
      } else {
        state := BlockData(header.value);
      }
    }

    /** Reads a block's bytes at `from`, after its header, into the output buffer. */
    method LoadBlock(h: BlockHeader, input: seq<byte>, from: nat, ghost info: StreamInfo, ghost out: seq<byte>, ghost st: EntropyState)
      returns (ok: bool, at: nat)
      requires Sound(code) && StateReady(st) && |out| <= info.room
      requires InFrame() && st == Entropy() && info == Info() && out == frameOut && 3 <= from <= |input| && SeqReader.Addressable(input)
      requires ParseBlockHeader(input[from - 3], input[from - 2], input[from - 1]) == Some(h)
      requires h.size <= MAX_BLOCK_SIZE || h.kind.Compressed?
      modifies this`outputBuf, this`reps, ws, tables
      ensures ws.Valid() && tables.Valid()
      ensures match StreamAt(code, input, from - 3, info, out, st)
        case None => !ok
        case Some(b) => ok && outputBuf == b.blk && at == b.at && b.st == Entropy() && Between(ws, tables) && b.last == h.last
      ensures ok ==> |outputBuf| <= MAX_BLOCK_SIZE
    {
      hide BlockDecodeWorkspace.Valid, SequenceDecodeTables.Valid, StreamBlock, Holds, DictReady, Visible, StateReady, Sound;
      at := from;
      match h.kind {
        case Raw =>
          if from + h.size > |input| {
            return false, at;
          }
          outputBuf := input[from..from + h.size];
          return true, from + h.size;
        case Rle =>
          if from >= |input| {
            return false, at;
          }
          outputBuf := Fill(input[from], h.size);
          return true, from + 1;
        case Compressed =>
          if from + h.size > |input| {
            return false, at;
          }
          ShownIsVisible();
          var data, room := input[from..from + h.size], maxOutput - bytesOutput;
          var shown := HistoryShown();
          var blk := DecodeAlone(ws, tables, reps, data, shown, room);
          if blk.None? {
            return false, at;
          }
          BlockSize(code, data, shown, room, st);
          outputBuf, reps := blk.value.0, blk.value.1;
          return true, from + h.size;
      }
    }

    /** Counts a loaded block, adds it to the checksum and the history, and moves to
        the next state. */
    method Account(last: bool)
      requires Valid() && Between(ws, tables) && |outputBuf| <= MAX_BLOCK_SIZE && state.BlockData?
      requires InFrame()
      modifies this`state, this`hashed, this`bytesOutput, this`frameBytes, this`frameOut, history
      ensures Valid() && Info() == old(Info()) && RoomOk()
      ensures state == (
        if old(bytesOutput) + |outputBuf| > maxOutput then Failed
        else if !last then BlockStart
        else if contentSize.Some? && old(frameBytes) + |outputBuf| != contentSize.value then Failed
        else if checksum then CheckSumField else FrameStart)
      ensures state != Failed ==> InFrame() && frameOut == old(frameOut) + outputBuf
    {
      hide BlockDecodeWorkspace.Valid, SequenceDecodeTables.Valid, Between, DictReady, HistoryOk;
      if checksum {
        hashed := hashed + outputBuf;
      }
      bytesOutput, frameBytes := bytesOutput + |outputBuf|, frameBytes + |outputBuf|;
      if bytesOutput > maxOutput {
        state := Failed;
        return;
      }
      KeepBlock();
      if !last {
        state := BlockStart;
      } else if contentSize.Some? && frameBytes != contentSize.value {
        state := Failed;
      } else {
        state := if checksum then CheckSumField else FrameStart;
      }
    }

    /** The counted block goes to the frame's output and to the history. */
    method KeepBlock()
      requires |outputBuf| <= MAX_BLOCK_SIZE && frameBytes == |frameOut| + |outputBuf| && RoomOk()
      requires HistoryOk()
      modifies this`frameOut, history
      ensures HistoryOk() && RoomOk() && frameOut == old(frameOut) + outputBuf
    {
      hide Holds;
      ghost var all := HistoryOf(dict) + frameOut;
      assert all + outputBuf == HistoryOf(dict) + (frameOut + outputBuf);
      frameOut := frameOut + outputBuf;
      if window > 0 {
        history.Append(outputBuf, window, frameBytes, |HistoryOf(dict)|, all);
      }
    }

    /** One block: header, bytes, accounting. */
    method ReadBlock(input: seq<byte>, at: nat, ghost info: StreamInfo, ghost out: seq<byte>, ghost st: EntropyState)
      returns (at': nat)
      requires Sound(code) && StateReady(st) && |out| <= info.room
      requires InFrame() && state == BlockStart && st == Entropy() && info == Info() && out == frameOut
      requires at <= |input| && SeqReader.Addressable(input)
      modifies this`state, this`outputBuf, this`reps, this`hashed, this`bytesOutput, this`frameBytes, this`frameOut,
               ws, tables, history
      ensures Valid() && Info() == info && RoomOk()
      ensures match StreamAt(code, input, at, info, out, st)
        case None => state == Failed
        case Some(b) =>
          if |out| + |b.blk| > info.room || (b.last && contentSize.Some? && |out| + |b.blk| != contentSize.value) then state == Failed
          else
            && state == (if !b.last then BlockStart else if checksum then CheckSumField else FrameStart)
            && InFrame() && frameOut == out + b.blk && outputBuf == b.blk && b.st == Entropy() && at' == b.at
    {
      hide BlockDecodeWorkspace.Valid, SequenceDecodeTables.Valid, StreamBlock, HistoryOk, DictReady, StateReady, Sound;
      at' := at;
      ReadBlockHeader(input, at);
      if state.Failed? {
        return;
      }
      var h := state.header;
      var ok;
      ok, at' := LoadBlock(h, input, at + 3, info, out, st);
      if !ok {
        state := Failed;
        return;
      }
      Account(h.last);
    }

    /** The frame's blocks up to the last. */
    method ReadBlocks(input: seq<byte>, start: nat, ghost info: StreamInfo, ghost st0: EntropyState)
      returns (r: Option<(seq<byte>, nat)>)
      requires Sound(code) && StateReady(st0) && start <= |input| && SeqReader.Addressable(input)
      requires InFrame() && state == BlockStart && st0 == Entropy() && info == Info() && frameOut == []
      modifies this`state, this`outputBuf, this`reps, this`hashed, this`bytesOutput, this`frameBytes, this`frameOut,
               ws, tables, history
      ensures Valid() && Info() == info && RoomOk()
      ensures r == StreamBlocks(code, input, start, info, [], st0)
      ensures r.None? ==> state == Failed
      ensures r.Some? ==> InFrame() && frameOut == r.value.0 && state == (if checksum then CheckSumField else FrameStart)
    {
      hide BlockDecodeWorkspace.Valid, SequenceDecodeTables.Valid, StreamAt, DictReady, HistoryOk, StateReady, Sound;
      ghost var st := st0;
      ghost var whole := StreamBlocks(code, input, start, info, [], st);
      var out, at := [], start;
      while state == BlockStart
        invariant Valid() && at <= |input| && info == Info()
        invariant state == BlockStart || state == (if checksum then CheckSumField else FrameStart)
        invariant InFrame() && st == Entropy() && StateReady(st)
        invariant out == frameOut && |frameOut| <= info.room
        invariant whole == if state == BlockStart then StreamBlocks(code, input, at, info, frameOut, st) else Some((frameOut, at))
        decreases |input| - at, state == BlockStart
      {
        ghost var b := StreamAt(code, input, at, info, frameOut, st);
        at := ReadBlock(input, at, info, frameOut, st);
        if state == Failed {
          return None;
        }
        out, st := out + outputBuf, b.value.st;
      }
      return Some((out, at));
    }

    /** The checksum field after the last block, if the frame has one. */
    method ReadCheckSum(input: seq<byte>, at: nat, ghost header: FrameHeader) returns (r: Option<nat>)
      requires InFrame() && header.checksum == checksum && at <= |input|
      requires state == if checksum then CheckSumField else FrameStart
      modifies this`state
      ensures Valid() && state == if r.Some? then FrameStart else Failed
      ensures r == match CheckSum(hash, header, frameOut, input, at) case Err(_) => None case Ok(end) => Some(end)
    {
      hide Bits.LE, BlockDecodeWorkspace.Valid, SequenceDecodeTables.Valid, DictReady, FrameDecoder.HistoryOk, FrameDecoder.RoomOk, Between;
      if state == CheckSumField {
        if at + 4 > |input| || hash(hashed) % 0x1_0000_0000 != Bits.LE(input[at..at + 4]) {
          state := Failed;
          return None;
        }
        state := FrameStart;
        return Some(at + 4);
      }
      return Some(at);
    }

    lemma RoomIs(info: StreamInfo)
      requires RoomOk() && Info() == info
      ensures history.capacity <= Max(roomBefore, Most(info.window, |HistoryOf(dict)|))
    {
    }

    lemma MaxAtLeast(a: nat, b: nat)
      ensures a <= Max(a, b)
    {
    }

    /** The room a frame began with, less its output, is what is left. */
    lemma OutputCounted(info: StreamInfo)
      requires InFrame() && Info() == info
      ensures bytesOutput + info.room == maxOutput + |frameOut| && bytesOutput <= maxOutput
    {
      hide FrameDecoder.Valid, FrameDecoder.HistoryOk, FrameDecoder.RoomOk, Between;
    }

    /** A whole frame: exactly what the frame means block by block. */
    method DecodeFrame(header: FrameHeader, windowSize: nat, input: seq<byte>) returns (r: Option<(seq<byte>, nat)>)
      requires Valid() && state == FrameStart && bytesOutput <= maxOutput
      requires header.size <= |input| && SeqReader.Addressable(input)
      modifies this, ws, tables, history
      ensures Valid() && Sound(code)
      ensures r == StreamFrame(code, hash, dict, header, windowSize, input, maxOutput, maxOutput - old(bytesOutput))
      ensures state == if r.Some? then FrameStart else Failed
      ensures r.Some? ==> bytesOutput == old(bytesOutput) + |r.value.0| <= maxOutput
      ensures history.capacity <= Max(old(history.capacity), Most(windowSize, |HistoryOf(dict)|))
    {
      hide *;
      WorkspaceIsSound();
      FrameIs(code, hash, dict, header, windowSize, input, maxOutput, maxOutput - bytesOutput);
      ghost var info := StreamInfo(windowSize, HistoryOf(dict), maxOutput - bytesOutput, header.contentSize);
      BeginFrame(header, windowSize);
      if state == Failed {
        MaxAtLeast(history.capacity, Most(windowSize, |HistoryOf(dict)|));
        return None;
      }
      var blocks := ReadBlocks(input, header.size, info, InitialState(dict));
      RoomIs(info);
      if blocks.None? {
        return None;
      }
      OutputCounted(info);
      var end := ReadCheckSum(input, blocks.value.1, header);
      return if end.Some? then Some((blocks.value.0, end.value)) else None;
    }

    /** Every frame of an input, on the one decoder: what streaming decoding means,
        which is one shot's result as far as the offsets stay within reach, with the
        output counted over all of them and the history's room within what the
        largest window can need: two windows, or the dictionary and one, and a block. */
    method DecodeFrames(parse: seq<byte> -> Result<FrameStart, DecodeError>, input: seq<byte>) returns (r: Option<seq<byte>>)
      requires Valid() && state == FrameStart && bytesOutput <= maxOutput && Starts(parse) && SeqReader.Addressable(input)
      modifies this, ws, tables, history
      ensures Valid() && Sound(code)
      ensures r == StreamFrames(code, hash, dict, parse, input, maxOutput, maxOutput - old(bytesOutput))
      ensures StreamReach.Decodes(r, code, hash, dict, parse, input, maxOutput - old(bytesOutput))
      ensures r.Some? ==> state == FrameStart && bytesOutput == old(bytesOutput) + |r.value| <= maxOutput
      ensures r.None? ==> state == FrameStart || state == Failed
      ensures history.capacity <= Max(old(history.capacity), Max(0x1000_0000, |HistoryOf(dict)| + 0x800_0000) + 131072)
    {
      hide *;
      WorkspaceIsSound();
      MostIs(|HistoryOf(dict)|);
      StreamReach.StreamingDecodes(code, hash, dict, parse, input, maxOutput, maxOutput - bytesOutput);
      ghost var first, dictLen := history.capacity, |HistoryOf(dict)|;
      ghost var whole := StreamFrames(code, hash, dict, parse, input, maxOutput, maxOutput - bytesOutput);
      MaxAtLeast(first, Most(MAX_WINDOW_SIZE, dictLen));
      JoinedMore([], [], whole);
      var out: seq<byte>, rest := [], input;
      while |rest| > 0
        invariant Valid() && state == FrameStart && SeqReader.Addressable(rest)
        invariant bytesOutput == old(bytesOutput) + |out| <= maxOutput
        invariant whole == Joined(out, StreamFrames(code, hash, dict, parse, rest, maxOutput, maxOutput - bytesOutput))
        invariant history.capacity <= Max(first, Most(MAX_WINDOW_SIZE, dictLen))
        decreases |rest|
      {
        FramesStep(code, hash, dict, parse, rest, maxOutput, maxOutput - bytesOutput, out);
        var start := parse(rest);
        if start.Err? {
          return None;
        }
        StartTakes(parse, rest);
        if start.value.Skippable? {
          ShorterAddressable(rest, start.value.size);
          rest := rest[start.value.size..];
        } else {
          var h, window := start.value.header, start.value.window;
          FrameTakes(code, hash, dict, h, window, rest, maxOutput, maxOutput - bytesOutput);
          ghost var before := history.capacity;
          var frame := DecodeFrame(h, window, rest);
          MostGrows(history.capacity, before, first, window, dictLen);
          if frame.None? {
            return None;
          }
          ShorterAddressable(rest, frame.value.1);
          out, rest := out + frame.value.0, rest[frame.value.1..];
        }
      }
      FramesStep(code, hash, dict, parse, rest, maxOutput, maxOutput - bytesOutput, out);
      return Some(out);
    }

    /** A new input: whatever failed before, the decoder is as good as new. */
    method Reset()
      requires Valid()
      modifies this, ws, tables, history
      ensures Valid() && state == FrameStart && bytesOutput == 0 && history.capacity == old(history.capacity)
    {
      hide *;
      Parts();
      state, outputBuf, reps := FrameStart, [], INITIAL;
      DropEntropy(ws, tables);
      hashed, checksum, contentSize, window := [], false, None, 0;
      bytesOutput, frameBytes, frameOut, roomBefore := 0, 0, [], history.capacity;
      history.Restart([]);
      NotBegun();
    }

    lemma WorkspaceIsSound()
      requires Valid()
      ensures Sound(code) && DictReady(dict) && StateReady(InitialState(dict))
    {
      InitialReady(dict);
    }
  }
}
