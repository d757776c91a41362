/** Decoding a sequences section into output: sequences decoded and executed in
    turn, from the stack and from 64-bit words, against decoding the whole stream
    first and executing it one byte at a time. Errors are the source's. */
module SequenceRun {
  import opened Arith
  import opened Bits
  import opened Wrappers
  import opened SeqCodes
  import opened SeqStream
  import opened SeqReader
  import opened RepOffsets
  import opened Replay
  import opened Executor
  import ReverseReader

  // ----- the specification -----

  /** Where a block stands: its output, the literals used, the repeat offsets. */
  datatype BlockState = BlockState(out: seq<byte>, lp: nat, reps: Reps)

  /** The frame's history, the block's literals and the most output it may reach. */
  datatype Scope = Scope(history: seq<byte>, lits: seq<byte>, limit: nat)

  /** Executes a decoded sequence. */
  function ExecRaw(sc: Scope, st: BlockState, raw: RawSeq): (r: Result<BlockState, DecodeError>)
    requires raw.offsetValue > 0
    ensures r.Ok? ==> |r.value.out| <= sc.limit && r.value.lp <= |sc.lits|
    ensures r.Ok? ==> |st.out| <= |r.value.out|
  {
    var o := DecodeOffset(raw.offsetValue, raw.ll, st.reps);
    match ExecSeq(sc.history, st.out, sc.lits, st.lp, raw.ll, raw.ml, o.offset, sc.limit)
    case Err(e) => Err(e)
    case Ok(out) => Ok(BlockState(out, st.lp + raw.ll, o.reps))
  }

  function ExecMany(sc: Scope, st: BlockState, raws: seq<RawSeq>): (r: Option<BlockState>)
    requires forall i :: 0 <= i < |raws| ==> raws[i].offsetValue > 0
    decreases |raws|
  {
    if |raws| == 0 then Some(st)
    else
      match ExecRaw(sc, st, raws[0])
      case Err(_) => None
      case Ok(st') => ExecMany(sc, st', raws[1..])
  }

  /** The literals after the last sequence. */
  function WithRest(sc: Scope, st: BlockState): Option<(seq<byte>, Reps)> {
    if st.lp > |sc.lits| then None
    else if st.lp < |sc.lits| && |st.out| + |sc.lits| - st.lp > sc.limit then None
    else Some((st.out + sc.lits[st.lp..], st.reps))
  }

  /** What a stream of `n` sequences makes of the output so far: the output and
      the repeat offsets after it. */
  function RunBits(b: BitStack, t: SeqTables, n: nat, sc: Scope, out: seq<byte>, reps: Reps): Option<(seq<byte>, Reps)>
    requires n > 0 && TablesReady(t) && b.Valid()
  {
    match DecodeStream(b, t, n)
    case None => None
    case Some(raws) =>
      match ExecMany(sc, BlockState(out, 0, reps), raws)
      case None => None
      case Some(st) => WithRest(sc, st)
  }

  /** The same of the section's bytes. */
  function RunOf(data: seq<byte>, t: SeqTables, n: nat, sc: Scope, out: seq<byte>, reps: Reps): Option<(seq<byte>, Reps)>
    requires n > 0 && TablesReady(t)
  {
    if Marked(data) then RunBits(Unmark(data), t, n, sc, out, reps) else None
  }

  lemma {:induction false} ExecManyAppends(sc: Scope, st: BlockState, raws: seq<RawSeq>)
    requires forall i :: 0 <= i < |raws| ==> raws[i].offsetValue > 0
    requires ExecMany(sc, st, raws).Some? && |st.out| <= sc.limit
    ensures st.out <= ExecMany(sc, st, raws).value.out && |ExecMany(sc, st, raws).value.out| <= sc.limit
    decreases |raws|
  {
    hide DecodeOffset, ExecSeq;
    if |raws| > 0 {
      var st' := ExecRaw(sc, st, raws[0]).value;
      var o := DecodeOffset(raws[0].offsetValue, raws[0].ll, st.reps);
      ExecSeqAppends(sc.history, st.out, sc.lits, st.lp, raws[0].ll, raws[0].ml, o.offset, sc.limit);
      ExecManyAppends(sc, st', raws[1..]);
    }
  }

  /** A section only appends, and stays in its limit. */
  lemma RunAppends(data: seq<byte>, t: SeqTables, n: nat, sc: Scope, out: seq<byte>, reps: Reps)
    requires n > 0 && TablesReady(t) && |out| <= sc.limit
    requires RunOf(data, t, n, sc, out, reps).Some?
    ensures var r := RunOf(data, t, n, sc, out, reps).value; out <= r.0 && |r.0| <= sc.limit
  {
    hide TablesReady, DecodeStream, ExecMany;
    var raws := DecodeStream(Unmark(data), t, n).value;
    ExecManyAppends(sc, BlockState(out, 0, reps), raws);
  }

  /** The first sequence of a frame without a dictionary, with literals: the offset
      values 1, 2 and 3 repeat what stands 1, 4 and 8 bytes back. */
  lemma FirstMatch(sc: Scope, raw: RawSeq)
    requires sc.history == [] && raw.ll > 0 && 1 <= raw.offsetValue <= 3
    requires ExecRaw(sc, BlockState([], 0, INITIAL), raw).Ok?
    ensures var out := ExecRaw(sc, BlockState([], 0, INITIAL), raw).value.out;
      var back := if raw.offsetValue == 1 then 1 else if raw.offsetValue == 2 then 4 else 8;
      && back <= raw.ll <= |sc.lits| && |out| == raw.ll + raw.ml && out[..raw.ll] == sc.lits[..raw.ll]
      && forall k :: raw.ll <= k < |out| ==> out[k] == out[k - back]
  {
    hide CopyMatch;
    var lits := sc.lits[..raw.ll];
    assert [] + sc.lits[0..raw.ll] == lits && sc.history + lits == lits;
    CopyMatchRepeats(lits, DecodeOffset(raw.offsetValue, raw.ll, INITIAL).offset, raw.ml);
  }

  // ----- decoding and executing in turn -----

  /** How a run of sequences ends. */
  datatype Outcome = Done(st: BlockState) | Fails(error: DecodeError) | RunsOut

  /** The same from a decoder state on, one sequence decoded and executed after
      the other: the error of the first that cannot be executed, if the stream
      lasts so far. */
  function Interleaved(d: DecState, t: SeqTables, n: nat, sc: Scope, st: BlockState): (r: Outcome)
    requires n > 0 && TablesReady(t) && InTables(d, t)
    ensures r.Done? ==> r.st.lp <= |sc.lits|
    decreases n
  {
    match DecodeOne(d, t, n > 1)
    case None => RunsOut
    case Some((raw, d')) =>
      match ExecRaw(sc, st, raw)
      case Err(e) => Fails(e)
      case Ok(st') =>
        if n > 1 then Interleaved(d', t, n - 1, sc, st')
        else if d'.bits.len == 0 then Done(st')
        else Fails(CorruptSequences)
  }

  lemma {:induction false} InterleavedIs(d: DecState, t: SeqTables, n: nat, sc: Scope, st: BlockState)
    requires n > 0 && TablesReady(t) && InTables(d, t)
    ensures (match DecodeMany(d, t, n) case None => None case Some(raws) => ExecMany(sc, st, raws))
      == (match Interleaved(d, t, n, sc, st) case Done(st') => Some(st') case _ => None)
    decreases n
  {
    hide DecodeOne, TablesReady, InTables, ExecRaw;
    match DecodeOne(d, t, n > 1)
    case None =>
    case Some((raw, d')) =>
      if n == 1 {
        if d'.bits.len == 0 {
          assert [raw][1..] == [];
          assert DecodeMany(d, t, n) == Some([raw]);
          if ExecRaw(sc, st, raw).Ok? {
            assert ExecMany(sc, st, [raw]) == Some(ExecRaw(sc, st, raw).value);
          }
        }
      } else {
        if ExecRaw(sc, st, raw).Ok? { InterleavedIs(d', t, n - 1, sc, ExecRaw(sc, st, raw).value); }
        match DecodeMany(d', t, n - 1)
        case None =>
        case Some(rest) => assert ([raw] + rest)[1..] == rest;
      }
  }

  // ----- the same from words -----

  /** `n` sequences read from words and executed. The words never run out: past the
      stream's end the source executes what they hold, until a sequence fails or
      the counter is found not to be zero. */
  function RunWords(b: SeqBits, src: seq<byte>, t: SeqTables, s: States, n: nat, sc: Scope, st: BlockState)
    : (r: Result<BlockState, DecodeError>)
    requires n > 0 && TablesReady(t) && StatesIn(s, t) && Addressable(src) && |src| >= 8
    ensures r.Ok? ==> r.value.lp <= |sc.lits|
    decreases n
  {
    hide TablesReady, StatesIn, DecodeWord;
    var (raw, b', s') := DecodeWord(b, src, t, s, n > 1);
    match ExecRaw(sc, st, raw)
    case Err(e) => Err(e)
    case Ok(st') =>
      if n > 1 then RunWords(b', src, t, s', n - 1, sc, st')
      else if b'.left == 0 then Ok(st')
      else Err(CorruptSequences)
  }

  /** A counter below zero never gets back to it. */
  lemma {:induction false} RunOut(b: SeqBits, src: seq<byte>, t: SeqTables, s: States, n: nat, sc: Scope, st: BlockState, r: int)
    requires 0 < n < 0x1_0000_0000 && TablesReady(t) && StatesIn(s, t) && Addressable(src) && |src| >= 8
    requires Tracks(b.left, r) && -0x400_0000_0000_0000 + 89 * n <= r < 0
    ensures RunWords(b, src, t, s, n, sc, st).Err?
    decreases n
  {
    hide TablesReady, StatesIn, DecodeWord, ExecRaw, DecodeOne;
    var r' := DecodeWordExact(b, src, t, s, n > 1, r);
    var (raw, b', s') := DecodeWord(b, src, t, s, n > 1);
    if n > 1 && ExecRaw(sc, st, raw).Ok? {
      RunOut(b', src, t, s', n - 1, sc, ExecRaw(sc, st, raw).value, r');
    }
  }

  /** The words run the stack's sequences: they end as it does, errors included, as
      long as the stream has the sequences' bits, and are rejected when it has not. */
  lemma {:induction false} RunWordsIs(b: SeqBits, src: seq<byte>, t: SeqTables, s: States, n: nat, sc: Scope, st: BlockState, r: nat)
    requires 0 < n < 0x1_0000_0000 && TablesReady(t) && StatesIn(s, t) && Addressable(src) && |src| >= 8
    requires b.left == r <= 8 * |src|
    requires InTables(DecState(At(src, r), s.ll, s.of, s.ml), t)
    ensures match Interleaved(DecState(At(src, r), s.ll, s.of, s.ml), t, n, sc, st)
      case Done(st') => RunWords(b, src, t, s, n, sc, st) == Ok(st')
      case Fails(e) => RunWords(b, src, t, s, n, sc, st) == Err(e)
      case RunsOut => RunWords(b, src, t, s, n, sc, st).Err?
    decreases n
  {
    hide TablesReady, StatesIn, DecodeWord, ExecRaw, DecodeOne, At, InTables;
    var r' := DecodeWordExact(b, src, t, s, n > 1, r);
    var (raw, b', s') := DecodeWord(b, src, t, s, n > 1);
    if ExecRaw(sc, st, raw).Ok? {
      var st' := ExecRaw(sc, st, raw).value;
      if r' < 0 {
        if n > 1 { RunOut(b', src, t, s', n - 1, sc, st', r'); }
      } else {
        ReverseReader.AtLen(src, r');
        if n > 1 { RunWordsIs(b', src, t, s', n - 1, sc, st', r'); }
      }
    }
  }

  /** The three first states, from one word. */
  function FirstStates(w: Word, t: SeqTables): (r: (States, Word))
    requires TablesReady(t)
    ensures StatesIn(r.0, t) && r.1.pos == w.pos
  {
    hide BitAnd, Shr, Low, Pow2, Read;
    var (ll, w1) := Read(w, t.llLog);
    var (of, w2) := Read(w1, t.ofLog);
    var (ml, w3) := Read(w2, t.mlLog);
    ReadBelow(w, t.llLog);
    ReadBelow(w1, t.ofLog);
    ReadBelow(w2, t.mlLog);
    ReadPos(w, t.llLog);
    ReadPos(w1, t.ofLog);
    ReadPos(w2, t.mlLog);
    (States(ll, of, ml), w3)
  }

  lemma ReadPos(w: Word, count: nat)
    requires count <= 31
    ensures Read(w, count).1.pos == w.pos
  {
  }

  lemma FirstStatesExact(w: Word, src: seq<byte>, t: SeqTables, r: int) returns (r': int)
    requires TablesReady(t) && Holds(w, src, r, WORD_BITS) && r >= t.llLog + t.ofLog + t.mlLog
    ensures 0 <= r' <= r && Tracks(BitsOf(FirstStates(w, t).1).left, r')
    ensures var s := FirstStates(w, t).0; OpenStates(At(src, r), t) == Some(DecState(At(src, r'), s.ll, s.of, s.ml))
  {
    hide BitAnd, Shr, Low, LE, Rest, Top, Read;
    ReadExact(w, src, r, WORD_BITS, t.llLog);
    var (l, w1) := Read(w, t.llLog);
    ReadExact(w1, src, r - t.llLog, WORD_BITS - t.llLog, t.ofLog);
    var (o, w2) := Read(w1, t.ofLog);
    r' := r - t.llLog - t.ofLog;
    var budget := WORD_BITS - t.llLog - t.ofLog;
    ReadExact(w2, src, r', budget, t.mlLog);
    r' := r' - t.mlLog;
  }

  /** A section from its words: its result or the source's error. */
  function WordSection(bits: SeqBits, src: seq<byte>, t: SeqTables, n: nat, sc: Scope, out: seq<byte>, reps: Reps)
    : Result<(seq<byte>, Reps), DecodeError>
    requires n > 0 && TablesReady(t) && Addressable(src) && |src| >= 8
  {
    hide TablesReady, StatesIn;
    var (s, w) := FirstStates(WordAt(bits, src), t);
    match RunWords(BitsOf(w), src, t, s, n, sc, BlockState(out, 0, reps))
    case Err(e) => Err(e)
    case Ok(st) => match WithRest(sc, st) case None => Err(CorruptSequences) case Some(result) => Ok(result)
  }

  /** The words accept what the stack accepts, with the same result, and report the
      error of the sequence that fails while the stream lasts. */
  lemma WordSectionIs(bits: SeqBits, src: seq<byte>, t: SeqTables, n: nat, sc: Scope, out: seq<byte>, reps: Reps, r: nat)
    requires 0 < n < 0x1_0000_0000 && TablesReady(t) && Addressable(src) && |src| >= 8
    requires bits.left == r <= 8 * |src| && r >= t.llLog + t.ofLog + t.mlLog
    ensures RunBits(At(src, r), t, n, sc, out, reps)
      == match WordSection(bits, src, t, n, sc, out, reps) case Err(_) => None case Ok(result) => Some(result)
    ensures match OpenStates(At(src, r), t)
      case None => false
      case Some(d) =>
        var o := Interleaved(d, t, n, sc, BlockState(out, 0, reps));
        o.Fails? ==> WordSection(bits, src, t, n, sc, out, reps) == Err(o.error)
  {
    hide At, TablesReady, Interleaved, RunBits, RunWords, WordAt, Holds, FirstStates, OpenStates;
    WordHolds(bits, src, r);
    var r' := FirstStatesExact(WordAt(bits, src), src, t, r);
    var (s, w) := FirstStates(WordAt(bits, src), t);
    var d := DecState(At(src, r'), s.ll, s.of, s.ml);
    var st := BlockState(out, 0, reps);
    RunBitsOpened(At(src, r), t, n, sc, out, reps, d);
    RunWordsIs(BitsOf(w), src, t, s, n, sc, st, r');
  }

  lemma RunBitsOpened(b: BitStack, t: SeqTables, n: nat, sc: Scope, out: seq<byte>, reps: Reps, d: DecState)
    requires n > 0 && TablesReady(t) && b.Valid() && InTables(d, t) && OpenStates(b, t) == Some(d)
    ensures RunBits(b, t, n, sc, out, reps) ==
      match Interleaved(d, t, n, sc, BlockState(out, 0, reps)) case Done(st) => WithRest(sc, st) case _ => None
  {
    hide TablesReady, InTables, OpenStates, DecodeMany, Interleaved;
    InterleavedIs(d, t, n, sc, BlockState(out, 0, reps));
  }

  // ----- the sequence loop -----

  /** Bytes of zeros up to eight. */
  lemma PaddedAt(data: seq<byte>, pad: seq<byte>, r: nat)
    requires forall i :: 0 <= i < |pad| ==> pad[i] == 0
    ensures At(data + pad, r) == At(data, r)
  {
    LEConcat(data, pad);
    LEZeros(pad);
    ShlOne(8 * |data|);
  }

  /** One sequence decoded and executed. */
  method OneSequence(dec: SeqDecoder, b: SeqBits, src: seq<byte>, t: SeqTables, update: bool,
                     lits: Literals, lp: nat, out: SeqOut, history: seq<byte>)
    returns (b': SeqBits, r: Result<nat, DecodeError>)
    requires dec.Valid(t) && Addressable(src) && |src| >= 8 && lits.Valid() && out.Valid()
    modifies dec, out, out.buf
    ensures dec.Valid(t) && out.Valid()
    ensures var (raw, b1, s1) := DecodeWord(b, src, t, old(dec.Current()), update);
      && b' == b1 && dec.Current() == s1
      && ExecRaw(Scope(history, lits.AsSlice(), out.Limit()), BlockState(old(out.Output()), lp, old(dec.rep)), raw)
        == match r case Ok(lp') => Ok(BlockState(out.Output(), lp', dec.rep)) case Err(e) => Err(e)
  {
    hide TablesReady, DecodeWord, ExecSeq, StatesIn;
    var ll, ml, offset;
    b', ll, ml, offset := dec.Decode(b, src, t, update);
    var e := out.Execute(lits, lp, ll, ml, offset, history);
    return b', if e.Ok? then Ok(lp + ll) else Err(e.error);
  }

  /** The loop over `n` sequences: the last one is peeled off and keeps its states. */
  method SequenceLoop(dec: SeqDecoder, bits: SeqBits, src: seq<byte>, n: nat, t: SeqTables,
                      lits: Literals, out: SeqOut, history: seq<byte>)
    returns (r: Result<nat, DecodeError>)
    requires 0 < n && dec.Valid(t) && lits.Valid() && out.Valid() && Addressable(src) && 8 <= |src|
    modifies dec, out, out.buf
    ensures out.Valid()
    ensures RunWords(bits, src, t, old(dec.Current()), n, Scope(history, lits.AsSlice(), out.Limit()),
                     BlockState(old(out.Output()), 0, old(dec.rep)))
      == match r case Ok(lp) => Ok(BlockState(out.Output(), lp, dec.rep)) case Err(e) => Err(e)
  {
    hide TablesReady, DecodeWord, ExecRaw, StatesIn;
    ghost var sc := Scope(history, lits.AsSlice(), out.Limit());
    ghost var spec := RunWords(bits, src, t, dec.Current(), n, sc, BlockState(out.Output(), 0, dec.rep));
    var b, lp := bits, 0;
    var left: nat := n - 1;
    var done;
    while left != 0
      invariant 0 <= left < n && out.Valid() && dec.Valid(t)
      invariant spec == RunWords(b, src, t, dec.Current(), left + 1, sc, BlockState(out.Output(), lp, dec.rep))
    {
      b, done := OneSequence(dec, b, src, t, true, lits, lp, out, history);
      if done.Err? {
        return done;
      }
      lp := done.value;
      left := left - 1;
    }
    b, done := OneSequence(dec, b, src, t, false, lits, lp, out, history);
    if done.Ok? && b.left != 0 {
      return Err(CorruptSequences);
    }
    return done;
  }

  /** The literals left after the last sequence. */
  method Finish(lits: Literals, lp: nat, out: SeqOut, ghost sc: Scope, ghost reps: Reps) returns (ok: bool)
    requires lits.Valid() && out.Valid() && sc.lits == lits.AsSlice() && sc.limit == out.Limit() && lp <= lits.len
    modifies out, out.buf
    ensures out.Valid()
    ensures WithRest(sc, BlockState(old(out.Output()), lp, reps)) == if ok then Some((out.Output(), reps)) else None
  {
    ok := true;
    assert lits.AsSlice()[lp..lits.len] == sc.lits[lp..];
    assert out.Output() + [] == out.Output();
    if lp < lits.len {
      var e := out.ExtendLiterals(lits, lp, lits.len - lp);
      ok := e.Ok?;
    }
  }

  /** A section's sequences, decoded and executed in turn. The repeat offsets are
      handed out only on success. */
  method RunSequences(bits: SeqBits, src: seq<byte>, n: nat, t: SeqTables, reps: Reps,
                      lits: Literals, out: SeqOut, history: seq<byte>)
    returns (result: Result<Reps, DecodeError>)
    requires 0 < n && TablesReady(t) && lits.Valid() && out.Valid() && Addressable(src) && 8 <= |src|
    modifies out, out.buf
    ensures out.Valid()
    ensures WordSection(bits, src, t, n, Scope(history, lits.AsSlice(), out.Limit()), old(out.Output()), reps)
      == match result case Ok(reps') => Ok((out.Output(), reps')) case Err(e) => Err(e)
  {
    hide RunWords, WordAt, TablesReady, StatesIn, FirstStates;
    ghost var sc := Scope(history, lits.AsSlice(), out.Limit());
    var (s, w) := FirstStates(WordAt(bits, src), t);
    var dec := new SeqDecoder(s, reps);
    var done := SequenceLoop(dec, BitsOf(w), src, n, t, lits, out, history);
    if done.Err? {
      return Err(done.error);
    }
    var ok := Finish(lits, done.value, out, sc, dec.rep);
    return if ok then Ok(dec.rep) else Err(CorruptSequences);
  }
}
