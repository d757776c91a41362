/** A block's sequences section appended to the frame's output: the path for one
    sequence and the path for many accept what the stack accepts, with its result,
    and otherwise give the source's error. */
module SectionDecode {
  import opened Arith
  import opened Bits
  import opened Wrappers
  import opened SeqCodes
  import opened SeqStream
  import opened SeqReader
  import opened RepOffsets
  import opened Replay
  import opened Executor
  import opened SequenceRun
  import Single = BlockOutput
  import Reverse = ReverseReader

  /** Where a block's output goes: the frame starts at `base`, and the block may
      add `maxBlock` bytes. */
  datatype Target = Target(output: seq<byte>, base: nat, maxBlock: nat, history: seq<byte>) {
    predicate Valid() {
      base <= |output|
    }

    function ScopeOf(lits: seq<byte>): Scope
      requires Valid()
    {
      Scope(history, lits, |output| - base + maxBlock)
    }
  }

  /** The whole output and the repeat offsets after the section. */
  function SectionOf(data: seq<byte>, t: SeqTables, n: nat, to: Target, lits: seq<byte>, reps: Reps): Option<(seq<byte>, Reps)>
    requires n > 0 && TablesReady(t) && to.Valid()
  {
    match RunOf(data, t, n, to.ScopeOf(lits), to.output[to.base..], reps)
    case None => None
    case Some((out, reps')) => Some((to.output[..to.base] + out, reps'))
  }

  lemma SectionAppends(data: seq<byte>, t: SeqTables, n: nat, to: Target, lits: seq<byte>, reps: Reps)
    requires n > 0 && TablesReady(t) && to.Valid() && SectionOf(data, t, n, to, lits, reps).Some?
    ensures var out := SectionOf(data, t, n, to, lits, reps).value.0;
      to.output <= out && |out| <= |to.output| + to.maxBlock
  {
    hide TablesReady, RunOf;
    RunAppends(data, t, n, to.ScopeOf(lits), to.output[to.base..], reps);
    assert to.output == to.output[..to.base] + to.output[to.base..];
  }

  // ----- the errors -----

  /** The section's bytes, with a short stream padded to a word. */
  function Padded(data: seq<byte>): (p: seq<byte>)
    ensures |p| >= 8 && |p| >= |data|
  {
    if |data| < 8 then data + seq(8 - |data|, _ => 0) else data
  }

  lemma PaddedReads(data: seq<byte>)
    requires Marked(data)
    ensures At(Padded(data), Unmark(data).len) == Unmark(data)
    ensures Unmark(data).len <= 8 * |Padded(data)|
  {
    MarkerPosition(data);
    if |data| < 8 {
      PaddedAt(data, seq(8 - |data|, _ => 0), Unmark(data).len);
    }
  }

  lemma TooShort(b: BitStack, t: SeqTables, n: nat, sc: Scope, out: seq<byte>, reps: Reps)
    requires b.Valid() && TablesReady(t) && n > 0 && b.len < t.llLog + t.ofLog + t.mlLog
    ensures RunBits(b, t, n, sc, out, reps) == None
  {
  }

  /** The words of a stream accept what its stack accepts. */
  lemma ManyIs(data: seq<byte>, t: SeqTables, n: nat, sc: Scope, out: seq<byte>, reps: Reps)
    requires 0 < n < 0x1_0000_0000 && TablesReady(t) && Addressable(data)
    requires Marked(data) && Unmark(data).len >= t.llLog + t.ofLog + t.mlLog
    ensures RunOf(data, t, n, sc, out, reps)
      == match WordSection(Open(data).value, Padded(data), t, n, sc, out, reps)
        case Err(_) => None
        case Ok(result) => Some(result)
  {
    hide TablesReady, RunBits, Unmark, LE, At, WordSection;
    PaddedReads(data);
    MarkerPosition(data);
    WordSectionIs(Open(data).value, Padded(data), t, n, sc, out, reps, Unmark(data).len);
  }

  /** A sequence's values after one refill of a reader with `left` unread bits: the
      container's fields, past its end too. */
  function BranchlessSequence(data: seq<byte>, left: nat, llX: Extra, mlX: Extra, ofX: Extra): (raw: RawSeq)
    requires left <= 8 * |data| && llX.bits <= 16 && mlX.bits <= 16 && ofX.bits <= 31 && ofX.base > 0
    ensures raw.offsetValue > 0
  {
    var ptr := Reverse.RefillPtr(left);
    var container, consumed := Reverse.Load(data, ptr), 8 * ptr + 64 - left;
    RawSeq(llX.base + Reverse.Branchless(container, consumed + ofX.bits + mlX.bits, llX.bits),
           mlX.base + Reverse.Branchless(container, consumed + ofX.bits, mlX.bits),
           ofX.base + Reverse.Branchless(container, consumed, ofX.bits))
  }

  /** They are the stack's when the container has them all, as it has in every
      stream of one sequence. */
  lemma BranchlessExact(data: seq<byte>, left: nat, llX: Extra, mlX: Extra, ofX: Extra)
    requires 0 < |data| && left <= 8 * |data| && llX.bits <= 16 && mlX.bits <= 16 && ofX.bits <= 31 && ofX.base > 0
    requires llX.bits + mlX.bits + ofX.bits <= left
    requires llX.bits + mlX.bits + ofX.bits <= 57 || left <= 64
    ensures ReadExtras(At(data, left), llX, mlX, ofX)
      == Some((BranchlessSequence(data, left, llX, mlX, ofX), At(data, left - llX.bits - mlX.bits - ofX.bits)))
  {
    hide At, Pow2, Pop, Reverse.Load, Reverse.DoubleShift, Reverse.Branchless;
    var ptr := Reverse.RefillPtr(left);
    var container, consumed := Reverse.Load(data, ptr), 8 * ptr + 64 - left;
    Reverse.BranchlessField(data, ptr, consumed, ofX.bits);
    Reverse.BranchlessField(data, ptr, consumed + ofX.bits, mlX.bits);
    Reverse.BranchlessField(data, ptr, consumed + ofX.bits + mlX.bits, llX.bits);
  }

  /** The error of a rejected stream of one sequence that has its first states. */
  function SingleError(data: seq<byte>, d: DecState, t: SeqTables, sc: Scope, out: seq<byte>, reps: Reps): DecodeError
    requires TablesReady(t) && InTables(d, t) && d.bits.len <= 8 * |data|
  {
    StatesInTables(t, d.ll, d.of, d.ml, d.bits);
    var raw := BranchlessSequence(data, d.bits.len, t.ll[d.ll].extra, t.ml[d.ml].extra, t.of[d.of].extra);
    match ExecRaw(sc, BlockState(out, 0, reps), raw)
    case Err(e) => e
    case Ok(_) => CorruptSequences
  }

  /** The source's error for a section that is rejected: a missing marker, missing
      states, or that of the sequence that fails. (No slice is too long to
      address.) */
  function SectionError(data: seq<byte>, t: SeqTables, n: nat, to: Target, lits: seq<byte>, reps: Reps): DecodeError
    requires 0 < n < 0x1_0000_0000 && TablesReady(t) && to.Valid() && SectionOf(data, t, n, to, lits, reps).None?
  {
    hide TablesReady, RunOf, RunBits, Unmark, LE, At, WordSection, InTables, SingleError, OpenStates;
    if !Marked(data) || !Addressable(data) then CorruptSequences
    else
      var sc, out := to.ScopeOf(lits), to.output[to.base..];
      if Unmark(data).len < t.llLog + t.ofLog + t.mlLog then InputExhausted
      else if n == 1 then
        OpenedInTables(data, t);
        SingleError(data, OpenStates(Unmark(data), t).value, t, sc, out, reps)
      else
        ManyIs(data, t, n, sc, out, reps);
        WordSection(Open(data).value, Padded(data), t, n, sc, out, reps).error
  }

  lemma OpenedInTables(data: seq<byte>, t: SeqTables)
    requires Marked(data) && TablesReady(t)
    ensures OpenStates(Unmark(data), t).Some? <==> Unmark(data).len >= t.llLog + t.ofLog + t.mlLog
    ensures OpenStates(Unmark(data), t).Some? ==> OpenStates(Unmark(data), t).value.bits.len <= 8 * |data|
  {
    hide Unmark;
    MarkerPosition(data);
  }

  /** What a section decodes to, or the source's error. */
  function SectionResult(data: seq<byte>, t: SeqTables, n: nat, to: Target, lits: seq<byte>, reps: Reps)
    : Result<(seq<byte>, Reps), DecodeError>
    requires 0 < n < 0x1_0000_0000 && TablesReady(t) && to.Valid()
  {
    match SectionOf(data, t, n, to, lits, reps)
    case None => Err(SectionError(data, t, n, to, lits, reps))
    case Some(result) => Ok(result)
  }

  /** While the stream has the sequences' bits, the error is that of the first that
      byte-at-a-time execution rejects, or of bits left over. (The reader of a
      single sequence refills once, which is enough for 57 bits.) */
  lemma SectionFails(data: seq<byte>, t: SeqTables, n: nat, to: Target, lits: seq<byte>, reps: Reps, d: DecState)
    requires 0 < n < 0x1_0000_0000 && TablesReady(t) && to.Valid() && Addressable(data) && Marked(data)
    requires OpenStates(Unmark(data), t) == Some(d)
    requires Interleaved(d, t, n, to.ScopeOf(lits), BlockState(to.output[to.base..], 0, reps)).Fails?
    requires n == 1 ==> d.bits.len <= 64 || t.ll[d.ll].extra.bits + t.ml[d.ml].extra.bits + t.of[d.of].extra.bits <= 57
    ensures SectionResult(data, t, n, to, lits, reps)
      == Err(Interleaved(d, t, n, to.ScopeOf(lits), BlockState(to.output[to.base..], 0, reps)).error)
  {
    hide TablesReady, Unmark, LE, At, WordSection, InTables, OpenStates, BranchlessSequence;
    var sc, out := to.ScopeOf(lits), to.output[to.base..];
    RunBitsOpened(Unmark(data), t, n, sc, out, reps, d);
    OpenedInTables(data, t);
    if n > 1 {
      PaddedReads(data);
      MarkerPosition(data);
      WordSectionIs(Open(data).value, Padded(data), t, n, sc, out, reps, Unmark(data).len);
    } else {
      OneExact(data, t, d);
    }
  }

  /** The reader's sequence is the stack's, if the stack has it. */
  lemma OneExact(data: seq<byte>, t: SeqTables, d: DecState)
    requires TablesReady(t) && InTables(d, t) && Marked(data) && OpenStates(Unmark(data), t) == Some(d)
    requires d.bits.len <= 64 || t.ll[d.ll].extra.bits + t.ml[d.ml].extra.bits + t.of[d.of].extra.bits <= 57
    requires DecodeOne(d, t, false).Some? && d.bits.len <= 8 * |data|
    ensures t.ll[d.ll].extra.bits <= 16 && t.ml[d.ml].extra.bits <= 16
    ensures t.of[d.of].extra.bits <= 31 && t.of[d.of].extra.base > 0
    ensures BranchlessSequence(data, d.bits.len, t.ll[d.ll].extra, t.ml[d.ml].extra, t.of[d.of].extra)
      == DecodeOne(d, t, false).value.0
  {
    hide TablesReady, Unmark, At, OpenStates, BranchlessSequence, ReadExtras;
    StatesInTables(t, d.ll, d.of, d.ml, d.bits);
    var llX, mlX, ofX := t.ll[d.ll].extra, t.ml[d.ml].extra, t.of[d.of].extra;
    ReadExtrasLen(d.bits, llX, mlX, ofX);
    OpenedAt(data, t, d);
    BranchlessExact(data, d.bits.len, llX, mlX, ofX);
  }

  lemma OpenedAt(data: seq<byte>, t: SeqTables, d: DecState)
    requires TablesReady(t) && Marked(data) && OpenStates(Unmark(data), t) == Some(d)
    ensures d.bits == At(data, d.bits.len) && 0 < |data|
  {
    hide Low, Shr, LE, Pow2;
    MarkedAt(data);
    var len := Unmark(data).len;
    RestAt(data, len, t.llLog);
    RestAt(data, len - t.llLog, t.ofLog);
    RestAt(data, len - t.llLog - t.ofLog, t.mlLog);
  }

  // ----- many sequences -----

  lemma ManyResult(data: seq<byte>, t: SeqTables, n: nat, to: Target, lits: seq<byte>, reps: Reps)
    requires 1 < n < 0x1_0000_0000 && TablesReady(t) && to.Valid() && Addressable(data)
    requires Marked(data) && Unmark(data).len >= t.llLog + t.ofLog + t.mlLog
    ensures SectionResult(data, t, n, to, lits, reps)
      == match WordSection(Open(data).value, Padded(data), t, n, to.ScopeOf(lits), to.output[to.base..], reps)
        case Err(e) => Err(e)
        case Ok((out, reps')) => Ok((to.output[..to.base] + out, reps'))
  {
    hide TablesReady, RunBits, Unmark, LE, At, WordSection;
    ManyIs(data, t, n, to.ScopeOf(lits), to.output[to.base..], reps);
  }

  /** The frame's output so far, zeroed through the block's limit and the overlength. */
  method OpenBlock(to: Target) returns (out: SeqOut)
    requires to.Valid()
    ensures fresh(out) && fresh(out.buf) && out.Valid()
    ensures out.Output() == to.output[to.base..] && out.Limit() == |to.output| - to.base + to.maxBlock
  {
    var tail := to.output[to.base..];
    var room := new byte[|tail| + to.maxBlock + WILDCOPY_OVERLENGTH](i => if 0 <= i < |tail| then tail[i] else 0);
    out := new SeqOut(room, |tail|);
    assert room[..|tail|] == tail;
  }

  method DecodeExecuteSequences(data: seq<byte>, n: nat, t: SeqTables, reps: Reps, lits: Literals, to: Target)
    returns (result: Result<(seq<byte>, Reps), DecodeError>)
    requires 1 < n < 0x1_0000_0000 && TablesReady(t) && lits.Valid() && to.Valid() && Addressable(data)
    ensures result == SectionResult(data, t, n, to, lits.AsSlice(), reps)
  {
    hide TablesReady, RunBits, Unmark, LE, At, WordSection;
    var bits := Open(data);
    if bits.None? {
      return Err(CorruptSequences);
    }
    if bits.value.left < t.llLog + t.ofLog + t.mlLog {
      TooShort(Unmark(data), t, n, to.ScopeOf(lits.AsSlice()), to.output[to.base..], reps);
      return Err(InputExhausted);
    }
    ManyResult(data, t, n, to, lits.AsSlice(), reps);
    var out := OpenBlock(to);
    var r := RunSequences(bits.value, Padded(data), n, t, reps, lits, out, to.history);
    return if r.Ok? then Ok((to.output[..to.base] + out.buf[..out.op], r.value)) else Err(r.error);
  }

  // ----- one sequence -----

  lemma RunOne(b: BitStack, t: SeqTables, sc: Scope, out: seq<byte>, reps: Reps)
    requires b.Valid() && TablesReady(t)
    ensures RunBits(b, t, 1, sc, out, reps) ==
      match OpenStates(b, t) case None => None case Some(d) =>
      match DecodeOne(d, t, false) case None => None case Some((raw, d')) =>
      if d'.bits.len != 0 then None
      else match ExecRaw(sc, BlockState(out, 0, reps), raw) case Err(_) => None case Ok(st) => WithRest(sc, st)
  {
    hide TablesReady, OpenStates, DecodeOne, ExecRaw, WithRest;
    match OpenStates(b, t)
    case None =>
    case Some(d) =>
      match DecodeOne(d, t, false)
      case None =>
      case Some((raw, d')) =>
        if d'.bits.len == 0 {
          assert DecodeMany(d, t, 1) == Some([raw]);
          OneRaw(sc, BlockState(out, 0, reps), raw);
        }
  }

  lemma OneRaw(sc: Scope, st: BlockState, raw: RawSeq)
    requires raw.offsetValue > 0
    ensures ExecMany(sc, st, [raw]) == match ExecRaw(sc, st, raw) case Err(_) => None case Ok(st') => Some(st')
  {
    assert [raw][1..] == [];
    if ExecRaw(sc, st, raw).Ok? {
      assert ExecMany(sc, ExecRaw(sc, st, raw).value, []) == Some(ExecRaw(sc, st, raw).value);
    }
  }

  /** The sequence's values after one refill. The reads can pass the container's
      end only in a stream that is longer than one sequence, or shorter. */
  method ReadSequence(reader: Reverse.ReverseBitReader, llX: Extra, mlX: Extra, ofX: Extra)
    returns (raw: RawSeq, exhausted: bool)
    requires reader.Valid() && reader.Left() >= 0
    requires llX.bits <= 16 && mlX.bits <= 16 && ofX.bits <= 31 && ofX.base > 0
    modifies reader
    ensures raw == BranchlessSequence(reader.data, old(reader.Left()), llX, mlX, ofX)
    ensures match ReadExtras(At(reader.data, old(reader.Left())), llX, mlX, ofX)
      case None => !exhausted
      case Some((v, b)) => (exhausted <==> b.len == 0) && (exhausted ==> v == raw)
  {
    hide At, Pow2, Pop, Reverse.Load, Reverse.Branchless;
    reader.Refill();
    ghost var left := reader.Left();
    Reverse.AtLen(reader.data, left);
    var of := reader.ReadBitsBranchless(ofX.bits);
    var ml := reader.ReadBitsBranchless(mlX.bits);
    var ll := reader.ReadBitsBranchless(llX.bits);
    raw := RawSeq(llX.base + ll, mlX.base + ml, ofX.base + of);
    exhausted := reader.IsExhausted();
    ReadExtrasLen(At(reader.data, left), llX, mlX, ofX);
  }

  lemma ReadExtrasLen(b: BitStack, llX: Extra, mlX: Extra, ofX: Extra)
    requires b.Valid() && ofX.base > 0
    ensures ReadExtras(b, llX, mlX, ofX).Some? <==> llX.bits + mlX.bits + ofX.bits <= b.len
    ensures ReadExtras(b, llX, mlX, ofX).Some?
      ==> ReadExtras(b, llX, mlX, ofX).value.1.len == b.len - llX.bits - mlX.bits - ofX.bits
  {
  }

  method ReadOpening(reader: Reverse.ReverseBitReader, t: SeqTables) returns (ok: bool, ll: nat, of: nat, ml: nat)
    requires TablesReady(t) && reader.Valid() && reader.Left() >= 0
    modifies reader
    ensures reader.Valid() && (ok ==> reader.Left() >= 0)
    ensures OpenStates(At(reader.data, old(reader.Left())), t)
      == if ok then Some(DecState(At(reader.data, reader.Left()), ll, of, ml)) else None
  {
    hide At, Pow2;
    ok, ll, of, ml := false, 0, 0, 0;
    var v := reader.ReadBits(t.llLog);
    if v.None? {
      return;
    }
    ll := v.value;
    v := reader.ReadBits(t.ofLog);
    if v.None? {
      return;
    }
    of := v.value;
    v := reader.ReadBits(t.mlLog);
    if v.None? {
      return;
    }
    ok, ml := true, v.value;
  }

  /** The block's output after its one sequence and the literals left. A sequence that
      fails is reported before bits left over. */
  method ExecuteOne(out: Single.BlockOutput, to: Target, lits: seq<byte>, raw: RawSeq, reps: Reps, exhausted: bool)
    returns (r: Result<Reps, DecodeError>)
    requires to.Valid() && out.vec == to.output && out.blockLimit == |to.output| + to.maxBlock && raw.offsetValue > 0
    modifies out
    ensures match ExecRaw(to.ScopeOf(lits), BlockState(to.output[to.base..], 0, reps), raw)
      case Err(e) => r == Err(e)
      case Ok(st) =>
        var rest := WithRest(to.ScopeOf(lits), st);
        if !exhausted || rest.None? then r == Err(CorruptSequences)
        else r == Ok(rest.value.1) && out.vec == to.output[..to.base] + rest.value.0
  {
    hide ExecSeq, DecodeOffset;
    var o := DecodeOffset(raw.offsetValue, raw.ll, reps);
    var e := out.Execute(to.history, to.history != [], to.base, lits, raw.ll, raw.ml, o.offset);
    if e.Err? {
      return Err(e.error);
    }
    if !exhausted {
      return Err(CorruptSequences);
    }
    if raw.ll < |lits| {
      var remaining := |lits| - raw.ll;
      if remaining > out.blockLimit - |out.vec| {
        return Err(CorruptSequences);
      }
      out.ExtendSliceRange(lits, raw.ll, remaining);
      assert lits[raw.ll..raw.ll + remaining] == lits[raw.ll..];
    }
    return Ok(o.reps);
  }

  /** The section of one sequence, by the sequence its reader sees. */
  lemma OneResult(data: seq<byte>, t: SeqTables, to: Target, lits: seq<byte>, reps: Reps, d: DecState, raw: RawSeq, exhausted: bool)
    requires TablesReady(t) && to.Valid() && Addressable(data) && Marked(data)
    requires InTables(d, t) && OpenStates(Unmark(data), t) == Some(d) && d.bits.len <= 8 * |data|
    requires d.ll < |t.ll| && d.of < |t.of| && d.ml < |t.ml| && t.of[d.of].extra.base > 0
    requires t.ll[d.ll].extra.bits <= 16 && t.ml[d.ml].extra.bits <= 16 && t.of[d.of].extra.bits <= 31
    requires raw == BranchlessSequence(data, d.bits.len, t.ll[d.ll].extra, t.ml[d.ml].extra, t.of[d.of].extra)
    requires match ReadExtras(d.bits, t.ll[d.ll].extra, t.ml[d.ml].extra, t.of[d.of].extra)
      case None => !exhausted
      case Some((v, b)) => (exhausted <==> b.len == 0) && (exhausted ==> v == raw)
    ensures match ExecRaw(to.ScopeOf(lits), BlockState(to.output[to.base..], 0, reps), raw)
      case Err(e) => SectionResult(data, t, 1, to, lits, reps) == Err(e)
      case Ok(st) =>
        var rest := WithRest(to.ScopeOf(lits), st);
        if !exhausted || rest.None? then SectionResult(data, t, 1, to, lits, reps) == Err(CorruptSequences)
        else SectionResult(data, t, 1, to, lits, reps) == Ok((to.output[..to.base] + rest.value.0, rest.value.1))
  {
    hide TablesReady, RunBits, Unmark, LE, At, ExecRaw, OpenStates, WithRest, InTables, BranchlessSequence, ReadExtras;
    RunOne(Unmark(data), t, to.ScopeOf(lits), to.output[to.base..], reps);
    OpenedInTables(data, t);
  }

  method DecodeExecuteSingle(data: seq<byte>, t: SeqTables, reps: Reps, lits: seq<byte>, to: Target)
    returns (result: Result<(seq<byte>, Reps), DecodeError>)
    requires TablesReady(t) && to.Valid() && Addressable(data)
    ensures result == SectionResult(data, t, 1, to, lits, reps)
  {
    hide TablesReady, RunBits, Unmark, LE, At, ExecRaw, OpenStates, WithRest, InTables, BranchlessSequence, SectionResult;
    if !Marked(data) {
      NoMarker(data, t, to, lits, reps);
      return Err(CorruptSequences);
    }
    MarkedAt(data);
    var reader := new Reverse.ReverseBitReader(data);
    var ok, ll, of, ml := ReadOpening(reader, t);
    if !ok {
      NoStates(data, t, to, lits, reps);
      return Err(InputExhausted);
    }
    ghost var d := DecState(At(data, reader.Left()), ll, of, ml);
    StatesInTables(t, ll, of, ml, d.bits);
    var ofE, mlE, llE := t.of[Index(of)], t.ml[Index(ml)], t.ll[Index(ll)];
    OpenedInTables(data, t);
    Reverse.AtLen(data, reader.Left());
    var raw, exhausted := ReadSequence(reader, llE.extra, mlE.extra, ofE.extra);
    OneResult(data, t, to, lits, reps, d, raw, exhausted);
    var out := new Single.BlockOutput(to.output, to.maxBlock);
    var done := ExecuteOne(out, to, lits, raw, reps, exhausted);
    return if done.Ok? then Ok((out.vec, done.value)) else Err(done.error);
  }

  lemma NoMarker(data: seq<byte>, t: SeqTables, to: Target, lits: seq<byte>, reps: Reps)
    requires TablesReady(t) && to.Valid() && !Marked(data)
    ensures SectionResult(data, t, 1, to, lits, reps) == Err(CorruptSequences)
  {
    hide TablesReady;
  }

  lemma NoStates(data: seq<byte>, t: SeqTables, to: Target, lits: seq<byte>, reps: Reps)
    requires TablesReady(t) && to.Valid() && Addressable(data) && Marked(data) && OpenStates(Unmark(data), t).None?
    ensures SectionResult(data, t, 1, to, lits, reps) == Err(InputExhausted)
  {
    hide TablesReady, OpenStates, Unmark;
    OpenedInTables(data, t);
  }

  lemma MarkedAt(data: seq<byte>)
    requires Marked(data)
    ensures At(data, Unmark(data).len) == Unmark(data)
  {
  }

  lemma StatesInTables(t: SeqTables, ll: nat, of: nat, ml: nat, b: BitStack)
    requires TablesReady(t) && InTables(DecState(b, ll, of, ml), t)
    ensures ll < |t.ll| && of < |t.of| && ml < |t.ml|
    ensures Index(ll) == ll && Index(of) == of && Index(ml) == ml
    ensures t.ll[ll].extra.bits <= 16 && t.ml[ml].extra.bits <= 16
    ensures t.of[of].extra.bits <= 31 && t.of[of].extra.base > 0
  {
    IndexInTable(of, t.of, t.ofLog, 8, 31);
    IndexInTable(ml, t.ml, t.mlLog, 9, 16);
    IndexInTable(ll, t.ll, t.llLog, 9, 16);
  }

  /** The dispatch by the number of sequences: either path gives the section's
      output and repeat offsets, or its error. */
  method DecodeSequencesDispatch(data: seq<byte>, n: nat, t: SeqTables, reps: Reps, lits: Literals, to: Target)
    returns (result: Result<(seq<byte>, Reps), DecodeError>)
    requires 0 < n < 0x1_0000_0000 && TablesReady(t) && lits.Valid() && to.Valid() && Addressable(data)
    ensures result == SectionResult(data, t, n, to, lits.AsSlice(), reps)
  {
    if n == 1 {
      result := DecodeExecuteSingle(data, t, reps, lits.AsSlice(), to);
    } else {
      result := DecodeExecuteSequences(data, n, t, reps, lits, to);
    }
  }
}
