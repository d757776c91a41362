/** What a frame's blocks mean (section 3.1.1 of RFC 8878), with or without a
    dictionary. The frame header is given, and the checksum is any function. */
module FrameFormat {
  import opened Arith
  import opened Wrappers
  import opened Huffman
  import opened RepOffsets
  import opened TableSection
  import opened BlockFormat
  import Bits

  /** The content a frame may refer to, and the entropy tables it begins with. */
  datatype Dictionary = Dictionary(content: seq<byte>, huf: Option<HufTable>, tables: Three<Option<FieldTable>>, reps: Reps)

  ghost predicate DictReady(d: Option<Dictionary>) {
    d.Some? ==> (d.value.huf.Some? ==> UsableTable(d.value.huf.value)) && PrevReady(d.value.tables)
  }

  function HistoryOf(d: Option<Dictionary>): seq<byte> {
    if d.Some? then d.value.content else []
  }

  /** The state before a frame's first block. */
  function InitialState(d: Option<Dictionary>): EntropyState {
    match d
    case Some(dict) => EntropyState(dict.huf, dict.tables, dict.reps)
    case None => EntropyState(None, Three(None, None, None), INITIAL)
  }

  /** Without a dictionary a frame begins with no tables and the offsets 1, 4 and 8,
      after nothing; with one, with the dictionary's. */
  lemma Beginnings(d: Dictionary)
    ensures InitialState(None) == EntropyState(None, Three(None, None, None), Reps(1, 4, 8)) && HistoryOf(None) == []
    ensures InitialState(Some(d)) == EntropyState(d.huf, d.tables, d.reps) && HistoryOf(Some(d)) == d.content
  {
  }

  datatype FrameHeader = FrameHeader(contentSize: Option<nat>, checksum: bool, size: nat)

  // ----- blocks -----

  datatype BlockType = Raw | Rle | Compressed

  datatype BlockHeader = BlockHeader(last: bool, kind: BlockType, size: nat)

  function ParseBlockHeader(b0: byte, b1: byte, b2: byte): Option<BlockHeader> {
    var raw := b0 as nat + 256 * b1 as nat + 65536 * b2 as nat;
    var kind := match raw / 2 % 4 case 0 => Some(Raw) case 1 => Some(Rle) case 2 => Some(Compressed) case _ => None;
    if kind.None? then None else Some(BlockHeader(raw % 2 == 1, kind.value, raw / 8))
  }

  /** One block: the output, the position after it, the state and whether it is
      the frame's last. */
  datatype BlockResult = BlockResult(output: seq<byte>, at: nat, st: EntropyState, last: bool)

  ghost predicate BlockInput(c: WeightCode, input: seq<byte>, at: nat, f: Frame, output: seq<byte>, st: EntropyState) {
    Sound(c) && at <= |input| && InFrame(f, output) && StateReady(st)
  }

  /** `overrun` is the error of a frame that outgrows its limit. */
  ghost function BlockAt(c: WeightCode, input: seq<byte>, at: nat, f: Frame, output: seq<byte>, st: EntropyState,
                         overrun: DecodeError)
    : (r: Result<BlockResult, DecodeError>)
    requires BlockInput(c, input, at, f, output, st)
  {
    if at + 3 > |input| then Err(InputExhausted)
    else
      match ParseBlockHeader(input[at], input[at + 1], input[at + 2])
      case None => Err(BadBlockType)
      case Some(h) =>
        var from := at + 3;
        var room := |output| - f.start + h.size <= f.limit;
        if h.size > MAX_BLOCK_SIZE && !h.kind.Compressed? then Err(BlockTooLarge)
        else match h.kind
          case Raw =>
            if from + h.size > |input| then Err(InputExhausted)
            else if !room then Err(overrun)
            else Ok(BlockResult(output + input[from..from + h.size], from + h.size, st, h.last))
          case Rle =>
            if from >= |input| then Err(InputExhausted)
            else if !room then Err(overrun)
            else Ok(BlockResult(output + Fill(input[from], h.size), from + 1, st, h.last))
          case Compressed =>
            if from + h.size > |input| then Err(InputExhausted)
            else
              match CompressedBlock(c, input[from..from + h.size], f, output, st)
              case Err(e) => Err(if e == OutputTooSmall then overrun else e)
              case Ok((out, st')) => Ok(BlockResult(out, from + h.size, st', h.last))
  }

  /** A block leaves what the next one needs, and only appends. */
  lemma BlockAtKeeps(c: WeightCode, input: seq<byte>, at: nat, f: Frame, output: seq<byte>, st: EntropyState, overrun: DecodeError)
    requires BlockInput(c, input, at, f, output, st) && BlockAt(c, input, at, f, output, st, overrun).Ok?
    ensures var b := BlockAt(c, input, at, f, output, st, overrun).value;
      && at + 3 <= b.at && BlockInput(c, input, b.at, f, b.output, b.st) && output <= b.output
  {
    hide CompressedBlock, StateReady, Sound, ParseBlockHeader;
    var h := ParseBlockHeader(input[at], input[at + 1], input[at + 2]).value;
    if h.kind.Compressed? {
      BlockAppends(c, input[at + 3..at + 3 + h.size], f, output, st);
    }
  }

  // ----- raw and repeated blocks, byte by byte -----

  /** Three bytes, the lowest first: the bits of a block's header. */
  function BlockWord(input: seq<byte>, at: nat): nat
    requires at + 3 <= |input|
  {
    input[at] as nat + 256 * input[at + 1] as nat + 65536 * input[at + 2] as nat
  }

  /** The bytes that a raw or repeated block adds, and where it ends. */
  predicate PlainBytes(blk: seq<byte>, end: nat, last: bool, input: seq<byte>, at: nat)
    requires at + 3 <= |input|
  {
    var w := BlockWord(input, at);
    var (raw, n) := (w / 2 % 4 == 0, w / 8);
    && end == at + 3 + (if raw then n else 1) && end <= |input|
    && last == (w % 2 == 1)
    && |blk| == n
    && forall i :: 0 <= i < n ==> blk[i] == input[if raw then at + 3 + i else at + 3]
  }

  /** A raw or repeated block is accepted exactly when it is no larger than 128 KiB,
      its bytes are there and the frame has room. It appends these bytes and
      leaves the entropy state alone. */
  lemma PlainBlock(c: WeightCode, input: seq<byte>, at: nat, f: Frame, output: seq<byte>, st: EntropyState, overrun: DecodeError)
    requires BlockInput(c, input, at, f, output, st) && at + 3 <= |input| && BlockWord(input, at) / 2 % 4 < 2
    ensures var r, w := BlockAt(c, input, at, f, output, st, overrun), BlockWord(input, at);
      && (r.Ok? <==> w / 8 <= 131072 && at + 3 + (if w / 2 % 4 == 0 then w / 8 else 1) <= |input|
                     && |output| - f.start + w / 8 <= f.limit)
      && (r.Ok? ==> output <= r.value.output && r.value.st == st
                    && PlainBytes(r.value.output[|output|..], r.value.at, r.value.last, input, at))
  {
    hide Sound, StateReady, CompressedBlock;
  }

  /** The other two kinds: one decodes as many bytes as the header says, the other is
      an error. */
  lemma OtherBlock(c: WeightCode, input: seq<byte>, at: nat, f: Frame, output: seq<byte>, st: EntropyState, overrun: DecodeError)
    requires BlockInput(c, input, at, f, output, st) && at + 3 <= |input| && BlockWord(input, at) / 2 % 4 >= 2
    ensures var r, w := BlockAt(c, input, at, f, output, st, overrun), BlockWord(input, at);
      if w / 2 % 4 == 3 then r == Err(BadBlockType)
      else if at + 3 + w / 8 > |input| then r == Err(InputExhausted)
      else
        match CompressedBlock(c, input[at + 3..at + 3 + w / 8], f, output, st)
        case Err(e) => r == Err(if e == OutputTooSmall then overrun else e)
        case Ok(done) => r == Ok(BlockResult(done.0, at + 3 + w / 8, done.1, w % 2 == 1))
  {
    hide Sound, StateReady, CompressedBlock;
  }

  /** Blocks up to the last one. */
  ghost function BlocksOf(c: WeightCode, input: seq<byte>, at: nat, f: Frame, output: seq<byte>, st: EntropyState,
                          overrun: DecodeError)
    : (r: Result<(seq<byte>, nat), DecodeError>)
    requires BlockInput(c, input, at, f, output, st)
    ensures r.Ok? ==> InFrame(f, r.value.0) && at <= r.value.1 <= |input|
    ensures r.Ok? ==> output <= r.value.0
    decreases |input| - at
  {
    match BlockAt(c, input, at, f, output, st, overrun)
    case Err(e) => Err(e)
    case Ok(b) =>
      BlockAtKeeps(c, input, at, f, output, st, overrun);
      if b.last then Ok((b.output, b.at)) else BlocksOf(c, input, b.at, f, b.output, b.st, overrun)
  }

  // ----- the frame -----

  /** The checksum field of a frame that has one. */
  function CheckSum(hash: seq<byte> -> nat, header: FrameHeader, content: seq<byte>, input: seq<byte>, at: nat)
    : (r: Result<nat, DecodeError>)
    requires at <= |input|
    ensures r.Ok? ==> at <= r.value <= |input|
  {
    if !header.checksum then Ok(at)
    else if at + 4 > |input| then Err(InputExhausted)
    else if hash(content) % 0x1_0000_0000 != Bits.LE(input[at..at + 4]) then Err(ChecksumMismatch)
    else Ok(at + 4)
  }

  /** What is checked after the last block. */
  function FinishFrame(hash: seq<byte> -> nat, header: FrameHeader, input: seq<byte>, before: nat, out: seq<byte>, at: nat)
    : (r: Result<(seq<byte>, nat), DecodeError>)
    requires at <= |input| && before <= |out|
    ensures r.Ok? ==> r.value.0 == out && at <= r.value.1 <= |input|
  {
    match CheckSum(hash, header, out[before..], input, at)
    case Err(e) => Err(e)
    case Ok(end) =>
      if header.contentSize.Some? && |out| - before != header.contentSize.value then Err(FrameSizeMismatch)
      else Ok((out, end))
  }

  /** A frame's output limit: its declared size, if it has one. */
  function FrameLimit(header: FrameHeader, maxOutput: nat): nat {
    if header.contentSize.Some? then header.contentSize.value else maxOutput
  }

  /** The error of a frame that outgrows it. */
  function Overrun(header: FrameHeader): DecodeError {
    if header.contentSize.Some? then FrameSizeMismatch else OutputTooSmall
  }

  lemma InitialReady(d: Option<Dictionary>)
    requires DictReady(d)
    ensures StateReady(InitialState(d))
  {
  }

  /** A result only appends, at most `room` bytes, and is read from `from` on. */
  ghost predicate Grows(r: Result<(seq<byte>, nat), DecodeError>, output: seq<byte>, room: nat, input: seq<byte>, from: nat) {
    r.Ok? ==> output <= r.value.0 && |r.value.0| - |output| <= room && from <= r.value.1 <= |input|
  }

  /** A frame appended to the output, and the position after it. */
  ghost function FrameOf(c: WeightCode, hash: seq<byte> -> nat, d: Option<Dictionary>, header: FrameHeader,
                         input: seq<byte>, output: seq<byte>, maxOutput: nat)
    : (r: Result<(seq<byte>, nat), DecodeError>)
    requires Sound(c) && DictReady(d) && header.size <= |input|
    ensures Grows(r, output, maxOutput, input, header.size)
  {
    hide BlocksOf, Sound, DictReady, StateReady, InitialState, FinishFrame;
    InitialReady(d);
    if header.contentSize.Some? && header.contentSize.value > maxOutput then Err(OutputTooSmall)
    else
      var f := Frame(|output|, FrameLimit(header, maxOutput), HistoryOf(d));
      match BlocksOf(c, input, header.size, f, output, InitialState(d), Overrun(header))
      case Err(e) => Err(e)
      case Ok((out, at)) => FinishFrame(hash, header, input, |output|, out, at)
  }

  // ----- the checks at a frame's end, in numbers -----

  /** Four bytes, the lowest first. */
  function FourBytes(input: seq<byte>, at: nat): nat
    requires at + 4 <= |input|
  {
    input[at] as nat + 256 * input[at + 1] as nat + 65536 * input[at + 2] as nat + 16777216 * input[at + 3] as nat
  }

  lemma FirstByte(s: seq<byte>)
    requires |s| > 0
    ensures Bits.LE(s) == s[0] as nat + 256 * Bits.LE(s[1..])
  {
    ShlByte(Bits.LE(s[1..]));
  }

  lemma FourBytesAre(input: seq<byte>, at: nat)
    requires at + 4 <= |input|
    ensures Bits.LE(input[at..at + 4]) == FourBytes(input, at)
  {
    FirstByte(input[at..at + 4]);
    assert input[at..at + 4][1..] == input[at + 1..at + 4];
    FirstByte(input[at + 1..at + 4]);
    assert input[at + 1..at + 4][1..] == input[at + 2..at + 4];
    FirstByte(input[at + 2..at + 4]);
    assert input[at + 2..at + 4][1..] == input[at + 3..at + 4];
    FirstByte(input[at + 3..at + 4]);
    assert input[at + 3..at + 4][1..] == [];
    assert Bits.LE([]) == 0;
    hide Bits.LE;
  }

  /** A frame's content has the declared size, if there is one, and the four bytes
      before its end hold the low half of its hash, if the header says so. */
  predicate EndChecked(hash: seq<byte> -> nat, header: FrameHeader, content: seq<byte>, input: seq<byte>, end: nat) {
    && (header.contentSize.Some? ==> |content| == header.contentSize.value)
    && (header.checksum ==> 4 <= end <= |input| && hash(content) % 0x1_0000_0000 == FourBytes(input, end - 4))
  }

  predicate Passed(r: Result<(seq<byte>, nat), DecodeError>, hash: seq<byte> -> nat, header: FrameHeader,
                   input: seq<byte>, output: seq<byte>) {
    r.Ok? ==> output <= r.value.0 && EndChecked(hash, header, r.value.0[|output|..], input, r.value.1)
  }

  /** Once the blocks are decoded, the frame fails exactly as the end of the input,
      the checksum and the declared size say, in this order, and else is accepted. */
  predicate Ends(r: Result<(seq<byte>, nat), DecodeError>, hash: seq<byte> -> nat, header: FrameHeader, input: seq<byte>,
                 before: nat, out: seq<byte>, at: nat)
    requires before <= |out|
  {
    var content := out[before..];
    var cut := header.checksum && at + 4 > |input|;
    var differs := header.checksum && at + 4 <= |input| && hash(content) % 0x1_0000_0000 != FourBytes(input, at);
    var resized := header.contentSize.Some? && |content| != header.contentSize.value;
    && (r == Err(InputExhausted) <==> cut)
    && (r == Err(ChecksumMismatch) <==> differs)
    && (r == Err(FrameSizeMismatch) <==> !cut && !differs && resized)
    && (r == Ok((out, if header.checksum then at + 4 else at)) <==> !cut && !differs && !resized)
  }

  /** A frame's blocks: they may not outgrow the declared size, or else the limit. */
  ghost function FrameBlocks(c: WeightCode, d: Option<Dictionary>, header: FrameHeader, input: seq<byte>, output: seq<byte>,
                             maxOutput: nat)
    : (r: Result<(seq<byte>, nat), DecodeError>)
    requires Sound(c) && DictReady(d) && header.size <= |input|
  {
    hide BlocksOf, Sound, DictReady, StateReady, InitialState, HistoryOf;
    InitialReady(d);
    var limit := if header.contentSize.Some? then header.contentSize.value else maxOutput;
    var overrun := if header.contentSize.Some? then FrameSizeMismatch else OutputTooSmall;
    BlocksOf(c, input, header.size, Frame(|output|, limit, HistoryOf(d)), output, InitialState(d), overrun)
  }

  lemma FrameEnds(c: WeightCode, hash: seq<byte> -> nat, d: Option<Dictionary>, header: FrameHeader,
                  input: seq<byte>, output: seq<byte>, maxOutput: nat, out: seq<byte>, at: nat)
    requires Sound(c) && DictReady(d) && header.size <= |input|
    requires header.contentSize.Some? ==> header.contentSize.value <= maxOutput
    requires FrameBlocks(c, d, header, input, output, maxOutput) == Ok((out, at))
    ensures |output| <= |out| && Ends(FrameOf(c, hash, d, header, input, output, maxOutput), hash, header, input, |output|, out, at)
  {
    hide BlocksOf, Sound, DictReady, StateReady, InitialState, Bits.LE;
    if header.checksum && at + 4 <= |input| { FourBytesAre(input, at); }
  }

  /** An accepted frame appends content that passed its checks. */
  lemma FrameChecked(c: WeightCode, hash: seq<byte> -> nat, d: Option<Dictionary>, header: FrameHeader,
                     input: seq<byte>, output: seq<byte>, maxOutput: nat)
    requires Sound(c) && DictReady(d) && header.size <= |input|
    ensures Passed(FrameOf(c, hash, d, header, input, output, maxOutput), hash, header, input, output)
  {
    hide BlocksOf, Sound, DictReady, StateReady, InitialState, Bits.LE;
    var r := FrameOf(c, hash, d, header, input, output, maxOutput);
    if r.Ok? && header.checksum { FourBytesAre(input, r.value.1 - 4); }
  }

  // ----- frames in a row -----

  /** What an input begins with: bytes to skip, or a frame and its window. */
  datatype FrameStart = Skippable(size: nat) | Standard(header: FrameHeader, window: nat)

  const MAX_WINDOW_SIZE: nat := 0x800_0000

  /** The layout of headers is given: a start takes bytes of the input it is read
      from, and its window is not too large. */
  ghost predicate Starts(parse: seq<byte> -> Result<FrameStart, DecodeError>) {
    forall x: seq<byte> :: parse(x).Ok? ==>
      match parse(x).value
      case Skippable(n) => 0 < n <= |x|
      case Standard(h, window) => 0 < h.size <= |x| && window <= MAX_WINDOW_SIZE
  }

  /** Every frame of an input appended to the output, at most `room` bytes. */
  ghost function FramesOf(c: WeightCode, hash: seq<byte> -> nat, d: Option<Dictionary>,
                          parse: seq<byte> -> Result<FrameStart, DecodeError>, input: seq<byte>, output: seq<byte>, room: nat)
    : (r: Result<seq<byte>, DecodeError>)
    requires Sound(c) && DictReady(d) && Starts(parse)
    decreases |input|
  {
    hide Sound, DictReady, FrameOf;
    if |input| == 0 then Ok(output)
    else
      match parse(input)
      case Err(e) => Err(e)
      case Ok(Skippable(n)) => FramesOf(c, hash, d, parse, input[n..], output, room)
      case Ok(Standard(h, _)) =>
        match FrameOf(c, hash, d, h, input, output, room)
        case Err(e) => Err(e)
        case Ok((out, at)) => FramesOf(c, hash, d, parse, input[at..], out, room - (|out| - |output|))
  }
}
