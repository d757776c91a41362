/** The sequences bitstream (section 3.1.1.3.2.1.2 of RFC 8878) on a stack of
    bits: three interleaved FSE states, written from the last sequence to the
    first and read from the first to the last. */
module SeqStream {
  import opened Arith
  import opened Bits
  import opened Wrappers
  import opened FseTable
  import opened FseEncodeTable
  import opened SeqCodes

  // ----- the encoder's side -----

  /** One sequence's codes and its extra bits, literal length lowest, then
      match length, then offset. */
  datatype PackedSeq = PackedSeq(extraBits: nat, llC: nat, mlC: nat, ofC: nat, extraNbits: nat)

  /** A field's table, or none in RLE mode, which codes nothing. */
  type Coder = Option<EncodeTable>

  datatype Coders = Coders(ll: Coder, of: Coder, ml: Coder)

  function CoderLog(c: Coder): nat {
    if c.Some? then c.value.log else 0
  }

  ghost predicate CoderReady(c: Coder) {
    c.Some? ==> |c.value.transforms| == MAX_SYMBOLS && |c.value.states| == MAX_TABLE_SIZE
  }

  ghost predicate CodersReady(c: Coders) {
    CoderReady(c.ll) && CoderReady(c.of) && CoderReady(c.ml)
  }

  /** States in RLE mode stay at the one state of a table of one cell. */
  function InitOf(c: Coder, code: nat): nat
    requires CoderReady(c) && code < MAX_SYMBOLS
  {
    if c.Some? then InitState(c.value, code) else 1
  }

  function Transit1(c: Coder, code: nat, state: u32): Transit
    requires CoderReady(c)
  {
    if c.Some? then Transition(c.value, code, state) else Transit(0, 0, state)
  }

  // ----- the decoder's side -----

  /** A decoding row: the next state's base and bits, and the value's extra
      bits and baseline. */
  datatype SeqEntry = SeqEntry(base: nat, bits: nat, extra: Extra)

  datatype SeqTables = SeqTables(
    ll: seq<SeqEntry>, of: seq<SeqEntry>, ml: seq<SeqEntry>,
    llLog: nat, ofLog: nat, mlLog: nat)

  /** A row leads back into its own table. */
  ghost predicate TableReady(t: seq<SeqEntry>, log: nat, maxLog: nat, maxExtra: nat) {
    && log <= maxLog && |t| == Pow2(log)
    && forall i :: 0 <= i < |t| ==>
      t[i].bits <= log && t[i].base + Pow2(t[i].bits) <= |t| && t[i].extra.bits <= maxExtra
  }

  ghost predicate TablesReady(t: SeqTables) {
    && TableReady(t.ll, t.llLog, 9, 16) && TableReady(t.of, t.ofLog, 8, 31) && TableReady(t.ml, t.mlLog, 9, 16)
    && forall i :: 0 <= i < |t.of| ==> t.of[i].extra.base > 0
  }

  /** A decoded sequence: literal length, match length and offset value. */
  datatype RawSeq = RawSeq(ll: nat, ml: nat, offsetValue: nat)

  datatype DecState = DecState(bits: BitStack, ll: nat, of: nat, ml: nat)

  ghost predicate InTables(d: DecState, t: SeqTables) {
    d.bits.Valid() && d.ll < |t.ll| && d.of < |t.of| && d.ml < |t.ml|
  }

  /** Pops a field, or fails when the stream holds fewer bits. */
  function Pop(b: BitStack, n: nat): (r: Option<(nat, BitStack)>)
    requires b.Valid()
    ensures r.Some? ==> r.value.1.Valid() && r.value.0 < Pow2(n)
    ensures r.Some? <==> n <= b.len
  {
    if n <= b.len then Some((Top(b, n), Rest(b, n))) else None
  }

  /** A sequence's extra bits: offset, match length, literal length. */
  function ReadExtras(b: BitStack, llX: Extra, mlX: Extra, ofX: Extra): (r: Option<(RawSeq, BitStack)>)
    requires b.Valid() && ofX.base > 0
    ensures r.Some? ==> r.value.1.Valid() && r.value.0.offsetValue > 0
  {
    match Pop(b, ofX.bits) case None => None case Some((of, b1)) =>
    match Pop(b1, mlX.bits) case None => None case Some((ml, b2)) =>
    match Pop(b2, llX.bits) case None => None case Some((ll, b3)) =>
    Some((RawSeq(llX.base + ll, mlX.base + ml, ofX.base + of), b3))
  }

  /** The next states: literal length, match length, offset. */
  function ReadStates(b: BitStack, llE: SeqEntry, mlE: SeqEntry, ofE: SeqEntry): (r: Option<DecState>)
    requires b.Valid()
    ensures r.Some? ==> r.value.bits.Valid()
    ensures r.Some? ==> r.value.ll < llE.base + Pow2(llE.bits)
    ensures r.Some? ==> r.value.ml < mlE.base + Pow2(mlE.bits)
    ensures r.Some? ==> r.value.of < ofE.base + Pow2(ofE.bits)
  {
    match Pop(b, llE.bits) case None => None case Some((ll, b1)) =>
    match Pop(b1, mlE.bits) case None => None case Some((ml, b2)) =>
    match Pop(b2, ofE.bits) case None => None case Some((of, b3)) =>
    Some(DecState(b3, llE.base + ll, ofE.base + of, mlE.base + ml))
  }

  /** One decoded sequence; with `update` the states move on. */
  function DecodeOne(d: DecState, t: SeqTables, update: bool): (r: Option<(RawSeq, DecState)>)
    requires TablesReady(t) && InTables(d, t)
    ensures r.Some? ==> InTables(r.value.1, t) && r.value.0.offsetValue > 0
  {
    var ofE, mlE, llE := t.of[d.of], t.ml[d.ml], t.ll[d.ll];
    match ReadExtras(d.bits, llE.extra, mlE.extra, ofE.extra)
    case None => None
    case Some((raw, b)) =>
      if !update then Some((raw, d.(bits := b)))
      else
        match ReadStates(b, llE, mlE, ofE)
        case None => None
        case Some(d') => Some((raw, d'))
  }

  ghost predicate OffsetsPositive(raws: seq<RawSeq>) {
    forall i :: 0 <= i < |raws| ==> raws[i].offsetValue > 0
  }

  /** A sequence before those that follow it, if they decode. */
  function Before(raw: RawSeq, rest: Option<seq<RawSeq>>): (r: Option<seq<RawSeq>>)
    ensures r.Some? <==> rest.Some?
    ensures r.Some? ==> |r.value| == |rest.value| + 1
    ensures r.Some? && raw.offsetValue > 0 && OffsetsPositive(rest.value) ==> OffsetsPositive(r.value)
  {
    match rest case None => None case Some(raws) => Some([raw] + raws)
  }

  ghost predicate Many(r: Option<seq<RawSeq>>, n: nat) {
    r.Some? ==> |r.value| == n && OffsetsPositive(r.value)
  }

  /** `n` sequences; the last keeps its states, and must leave no bit. */
  function DecodeMany(d: DecState, t: SeqTables, n: nat): (r: Option<seq<RawSeq>>)
    requires n > 0 && TablesReady(t) && InTables(d, t)
    ensures Many(r, n)
    decreases n
  {
    hide TablesReady, InTables, DecodeOne;
    match DecodeOne(d, t, n > 1)
    case None => None
    case Some((raw, d')) =>
      if n > 1 then Before(raw, DecodeMany(d', t, n - 1))
      else if d'.bits.len == 0 then Some([raw])
      else None
  }

  /** The first states, in the order literal length, offset, match length. */
  function OpenStates(b: BitStack, t: SeqTables): (r: Option<DecState>)
    requires b.Valid() && TablesReady(t)
    ensures r.Some? ==> InTables(r.value, t)
  {
    match Pop(b, t.llLog) case None => None case Some((ll, b1)) =>
    match Pop(b1, t.ofLog) case None => None case Some((of, b2)) =>
    match Pop(b2, t.mlLog) case None => None case Some((ml, b3)) =>
    Some(DecState(b3, ll, of, ml))
  }

  /** The sequences of a stream without its marker. */
  function DecodeStream(b: BitStack, t: SeqTables, n: nat): (r: Option<seq<RawSeq>>)
    requires n > 0 && b.Valid() && TablesReady(t)
    ensures r.Some? ==> |r.value| == n && forall i :: 0 <= i < n ==> r.value[i].offsetValue > 0
  {
    match OpenStates(b, t)
    case None => None
    case Some(d) => DecodeMany(d, t, n)
  }

  // ----- matching tables -----

  datatype Kind = LiteralLength | MatchLength | OffsetCode

  function MaxCode(k: Kind): nat {
    match k case LiteralLength => LL_MAX case MatchLength => ML_MAX case OffsetCode => OF_MAX
  }

  function ExtraOf(k: Kind, code: nat): Extra
    requires code <= MaxCode(k)
  {
    match k case LiteralLength => LlExtra(code) case MatchLength => MlExtra(code) case OffsetCode => OfExtra(code)
  }

  /** Both sides of one field: the encoder's coder and the decoder's rows, and
      the symbol layout they share, of codes below `codes`. */
  datatype Field = Field(kind: Kind, coder: Coder, table: seq<SeqEntry>, log: nat, syms: seq<nat>, codes: nat)

  function EntryOf(kind: Kind, syms: seq<nat>, log: nat, i: nat): SeqEntry
    requires |syms| == Pow2(log) && i < |syms| && syms[i] <= MaxCode(kind)
  {
    SeqEntry(RowAt(syms, log, i).base, RowAt(syms, log, i).bits, ExtraOf(kind, syms[i]))
  }

  /** The first `n` rows are the layout's. */
  ghost predicate RowsMatch(f: Field, n: nat)
    requires n <= |f.syms| == |f.table| == Pow2(f.log)
    requires forall i :: 0 <= i < |f.syms| ==> f.syms[i] <= MaxCode(f.kind)
  {
    n > 0 ==> RowsMatch(f, n - 1) && f.table[n - 1] == EntryOf(f.kind, f.syms, f.log, n - 1)
  }

  lemma {:induction false} RowMatches(f: Field, n: nat, i: nat)
    requires i < n <= |f.syms| == |f.table| == Pow2(f.log)
    requires forall j :: 0 <= j < |f.syms| ==> f.syms[j] <= MaxCode(f.kind)
    requires RowsMatch(f, n)
    ensures f.table[i] == EntryOf(f.kind, f.syms, f.log, i)
  {
    if i < n - 1 { RowMatches(f, n - 1, i); }
  }

  lemma {:induction false} AllRowsMatch(f: Field, n: nat)
    requires n <= |f.syms| == |f.table| == Pow2(f.log)
    requires forall j :: 0 <= j < |f.syms| ==> f.syms[j] <= MaxCode(f.kind)
    requires forall i :: 0 <= i < n ==> f.table[i] == EntryOf(f.kind, f.syms, f.log, i)
    ensures RowsMatch(f, n)
  {
    if n > 0 { AllRowsMatch(f, n - 1); }
  }

  /** The coder and the rows belong to the layout. RLE mode is the layout of one
      cell, whose row has no bits. */
  ghost predicate Linked(f: Field) {
    && |f.syms| == |f.table| == Pow2(f.log)
    && (forall i :: 0 <= i < |f.syms| ==> f.syms[i] <= MaxCode(f.kind))
    && RowsMatch(f, |f.syms|)
    && (if f.coder.Some? then Encodes(f.coder.value, f.syms, f.codes) && f.coder.value.log == f.log
        else f.log == 0)
  }

  /** Codes the field's table has cells for. */
  ghost predicate Usable(f: Field, code: nat) {
    code <= MaxCode(f.kind) && CellCount(f.syms, code) > 0
  }

  ghost predicate StateOf(f: Field, state: nat) {
    Pow2(f.log) <= state < 2 * Pow2(f.log) && state < 1024
  }

  /** A code with a cell is below what all cells are below. */
  lemma {:induction false} CodeBelow(syms: seq<nat>, m: nat, n: nat, code: nat)
    requires m <= |syms| && FseSpread.Occurrences(syms, m, code) > 0 && forall i :: 0 <= i < |syms| ==> syms[i] < n
    ensures code < n
  {
    if m > 0 && syms[m - 1] != code {
      CodeBelow(syms, m - 1, n, code);
    }
  }

  /** A code's transition, undone by the row it moves to. */
  lemma FieldStep(f: Field, code: nat, state: nat) returns (i: nat)
    requires Linked(f) && Usable(f, code) && StateOf(f, state) && CoderReady(f.coder)
    ensures i < |f.syms| && f.syms[i] == code && Transit1(f.coder, code, state).next == Pow2(f.log) + i
    ensures StateOf(f, Pow2(f.log) + i)
    ensures var t := Transit1(f.coder, code, state);
      t.bits == f.table[i].bits <= f.log && t.out < Pow2(t.bits) && Pow2(f.log) + f.table[i].base + t.out == state
  {
    if f.coder.Some? {
      StatesAreSmall(f.log);
      CodeBelow(f.syms, |f.syms|, f.codes, code);
      i := TransitionUndone(f.coder.value, f.syms, f.codes, code, state);
    } else {
      i := 0;
      SingleCell(f.syms, code);
    }
    RowMatches(f, |f.syms|, i);
  }

  lemma FieldInit(f: Field, code: nat) returns (i: nat)
    requires Linked(f) && Usable(f, code) && CoderReady(f.coder)
    ensures code < MAX_SYMBOLS
    ensures i < |f.syms| && f.syms[i] == code && InitOf(f.coder, code) == Pow2(f.log) + i
    ensures StateOf(f, Pow2(f.log) + i)
  {
    if f.coder.Some? {
      StatesAreSmall(f.log);
      CodeBelow(f.syms, |f.syms|, f.codes, code);
      i := InitStateLands(f.coder.value, f.syms, f.codes, code);
    } else {
      i := 0;
      SingleCell(f.syms, code);
    }
  }

  lemma StepReady(f: Field, code: nat, state: nat)
    requires Linked(f) && Usable(f, code) && StateOf(f, state) && CoderReady(f.coder)
    ensures StateOf(f, Transit1(f.coder, code, state).next)
    ensures Transit1(f.coder, code, state).bits <= f.log
    ensures Transit1(f.coder, code, state).out < Pow2(Transit1(f.coder, code, state).bits)
  {
    var i := FieldStep(f, code, state);
  }

  lemma InitReady(f: Field, code: nat)
    requires Linked(f) && Usable(f, code) && CoderReady(f.coder)
    ensures code < MAX_SYMBOLS && StateOf(f, InitOf(f.coder, code))
  {
    var i := FieldInit(f, code);
  }

  lemma SingleCell(syms: seq<nat>, code: nat)
    requires |syms| == Pow2(0) && CellCount(syms, code) > 0
    ensures syms[0] == code && RowAt(syms, 0, 0).base == 0 && RowAt(syms, 0, 0).bits == 0
  {
    assert FseSpread.Occurrences(syms, 1, code) > 0;
    assert FseSpread.Occurrences(syms, 0, code) == 0;
    assert NextState(syms, 0) == 1;
    HighBitUnique(1, 0);
    assert Shl(1, 0) == 1;
  }

  datatype Fields = Fields(ll: Field, of: Field, ml: Field)

  ghost predicate FieldsLinked(f: Fields) {
    && f.ll.kind == LiteralLength && f.of.kind == OffsetCode && f.ml.kind == MatchLength
    && Linked(f.ll) && Linked(f.of) && Linked(f.ml)
    && CodersReady(CodersOf(f)) && f.ll.log <= 9 && f.of.log <= 8 && f.ml.log <= 9
  }

  function CodersOf(f: Fields): Coders {
    Coders(f.ll.coder, f.of.coder, f.ml.coder)
  }

  function TablesOf(f: Fields): SeqTables {
    SeqTables(f.ll.table, f.of.table, f.ml.table, f.ll.log, f.of.log, f.ml.log)
  }

  function MaxExtra(k: Kind): nat {
    if k == OffsetCode then 31 else 16
  }

  lemma ExtraBounds(k: Kind, code: nat)
    requires code <= MaxCode(k)
    ensures ExtraOf(k, code).bits <= MaxExtra(k)
    ensures k == OffsetCode ==> ExtraOf(k, code).base > 0
  {
  }

  lemma LinkedTableReady(f: Field, maxLog: nat)
    requires Linked(f) && f.log <= maxLog
    ensures TableReady(f.table, f.log, maxLog, MaxExtra(f.kind))
    ensures f.kind == OffsetCode ==> forall i :: 0 <= i < |f.table| ==> f.table[i].extra.base > 0
  {
    forall i: nat | i < |f.table|
      ensures f.table[i].bits <= f.log && f.table[i].base + Pow2(f.table[i].bits) <= |f.table|
      ensures f.table[i].extra.bits <= MaxExtra(f.kind)
      ensures f.kind == OffsetCode ==> f.table[i].extra.base > 0
    {
      ExtraBounds(f.kind, f.syms[i]);
      RowMatches(f, |f.syms|, i);
    }
  }

  lemma LinkedTablesReady(f: Fields)
    requires FieldsLinked(f)
    ensures TablesReady(TablesOf(f))
  {
    LinkedTableReady(f.ll, 9);
    LinkedTableReady(f.of, 8);
    LinkedTableReady(f.ml, 9);
  }

  /** The packed sequence has codes of the tables and its codes' extra bits. */
  ghost predicate Packed(p: PackedSeq, f: Fields)
    requires FieldsLinked(f)
  {
    && Usable(f.ll, p.llC) && Usable(f.of, p.ofC) && Usable(f.ml, p.mlC)
    && p.extraNbits == LlExtra(p.llC).bits + MlExtra(p.mlC).bits + OfExtra(p.ofC).bits
    && p.extraBits < Pow2(p.extraNbits)
  }

  /** Codes and extra bits that belong together, without any table. */
  ghost predicate WellFormed(p: PackedSeq) {
    && p.llC <= LL_MAX && p.mlC <= ML_MAX && p.ofC <= OF_MAX
    && p.extraNbits == LlExtra(p.llC).bits + MlExtra(p.mlC).bits + OfExtra(p.ofC).bits
    && p.extraBits < Pow2(p.extraNbits)
  }

  /** Extra bits taken apart. */
  function ValueWith(x: nat, ll: Extra, ml: Extra, of: Extra): RawSeq {
    RawSeq(ll.base + Low(x, ll.bits),
           ml.base + Low(Shr(x, ll.bits), ml.bits),
           of.base + Shr(x, ll.bits + ml.bits))
  }

  /** What a packed sequence stands for. */
  function ValueOf(p: PackedSeq): RawSeq
    requires p.llC <= LL_MAX && p.mlC <= ML_MAX && p.ofC <= OF_MAX
  {
    ValueWith(p.extraBits, LlExtra(p.llC), MlExtra(p.mlC), OfExtra(p.ofC))
  }

  // ----- the stream of a packed sequence list -----

  /** The encoder after some of the sequences, counted from the last. */
  datatype EncState = EncState(bits: BitStack, ll: nat, of: nat, ml: nat)

  ghost predicate EncReady(e: EncState, f: Fields) {
    e.bits.Valid() && StateOf(f.ll, e.ll) && StateOf(f.of, e.of) && StateOf(f.ml, e.ml)
  }

  ghost predicate AllPacked(p: seq<PackedSeq>, f: Fields)
    requires FieldsLinked(f)
  {
    |p| > 0 && forall i :: 0 <= i < |p| ==> Packed(p[i], f)
  }

  /** The last sequence: its extra bits, and a first state per field. */
  ghost function EncodeLast(p: PackedSeq, f: Fields): (e: EncState)
    requires FieldsLinked(f) && Packed(p, f)
    ensures EncReady(e, f)
  {
    InitReady(f.ll, p.llC);
    InitReady(f.of, p.ofC);
    InitReady(f.ml, p.mlC);
    EncState(Push(EMPTY, p.extraBits, p.extraNbits),
             InitOf(f.ll.coder, p.llC), InitOf(f.of.coder, p.ofC), InitOf(f.ml.coder, p.mlC))
  }

  /** An earlier sequence: the states' low bits, offset first, then its extra bits. */
  ghost function EncodeNext(e: EncState, p: PackedSeq, f: Fields): (e': EncState)
    requires FieldsLinked(f) && Packed(p, f) && EncReady(e, f)
    ensures EncReady(e', f)
  {
    StepReady(f.of, p.ofC, e.of);
    StepReady(f.ml, p.mlC, e.ml);
    StepReady(f.ll, p.llC, e.ll);
    var of := Transit1(f.of.coder, p.ofC, e.of);
    var ml := Transit1(f.ml.coder, p.mlC, e.ml);
    var ll := Transit1(f.ll.coder, p.llC, e.ll);
    EncState(Push(Push(Push(Push(e.bits, of.out, of.bits), ml.out, ml.bits), ll.out, ll.bits),
                  p.extraBits, p.extraNbits),
             ll.next, of.next, ml.next)
  }

  ghost function EncodeFrom(p: seq<PackedSeq>, k: nat, f: Fields): (e: EncState)
    requires FieldsLinked(f) && AllPacked(p, f) && k < |p|
    ensures EncReady(e, f)
    decreases |p| - k
  {
    if k == |p| - 1 then EncodeLast(p[k], f) else EncodeNext(EncodeFrom(p, k + 1, f), p[k], f)
  }

  /** The final states: match length, offset, literal length. */
  ghost function EncodeStates(e: EncState, f: Fields): (b: BitStack)
    requires FieldsLinked(f) && EncReady(e, f)
    ensures b.Valid()
  {
    Push(Push(Push(e.bits, e.ml - Pow2(f.ml.log), f.ml.log), e.of - Pow2(f.of.log), f.of.log),
         e.ll - Pow2(f.ll.log), f.ll.log)
  }

  ghost function Stream(p: seq<PackedSeq>, f: Fields): (b: BitStack)
    requires FieldsLinked(f) && AllPacked(p, f)
    ensures b.Valid()
  {
    EncodeStates(EncodeFrom(p, 0, f), f)
  }

  // ----- the round trip -----

  /** Three pushes in one. */
  lemma PushThree(b: BitStack, x0: nat, n0: nat, x1: nat, n1: nat, x2: nat, n2: nat)
    requires b.Valid() && x0 < Pow2(n0) && x1 < Pow2(n1) && x2 < Pow2(n2)
    ensures x0 + Shl(x1, n0) + Shl(x2, n0 + n1) < Pow2(n0 + n1 + n2)
    ensures Push(b, x0 + Shl(x1, n0) + Shl(x2, n0 + n1), n0 + n1 + n2)
      == Push(Push(Push(b, x0, n0), x1, n1), x2, n2)
  {
    hide Shl, Pow2;
    PushPush(b, x0, n0, x1, n1);
    PushPush(b, x0 + Shl(x1, n0), n0 + n1, x2, n2);
  }

  lemma SplitThree(x: nat, n0: nat, n1: nat)
    ensures x == Low(x, n0) + Shl(Low(Shr(x, n0), n1), n0) + Shl(Shr(x, n0 + n1), n0 + n1)
  {
    SplitAt(x, n0);
    SplitAt(Shr(x, n0), n1);
    ShrShr(x, n0, n1);
    ShlAdd(Low(Shr(x, n0), n1), Shl(Shr(x, n0 + n1), n1), n0);
    ShlShl(Shr(x, n0 + n1), n1, n0);
  }

  /** Fields pushed are read back, last first. */
  lemma PopThree(b: BitStack, x0: nat, n0: nat, x1: nat, n1: nat, x2: nat, n2: nat)
    requires b.Valid() && x0 < Pow2(n0) && x1 < Pow2(n1) && x2 < Pow2(n2)
    ensures Pop(Push(Push(Push(b, x0, n0), x1, n1), x2, n2), n2) == Some((x2, Push(Push(b, x0, n0), x1, n1)))
    ensures Pop(Push(Push(b, x0, n0), x1, n1), n1) == Some((x1, Push(b, x0, n0)))
    ensures Pop(Push(b, x0, n0), n0) == Some((x0, b))
  {
    PopPush(Push(Push(b, x0, n0), x1, n1), x2, n2);
    PopPush(Push(b, x0, n0), x1, n1);
    PopPush(b, x0, n0);
  }

  lemma ReadThree(b: BitStack, x0: nat, x1: nat, x2: nat, ll: Extra, ml: Extra, of: Extra)
    requires b.Valid() && x0 < Pow2(ll.bits) && x1 < Pow2(ml.bits) && x2 < Pow2(of.bits) && of.base > 0
    ensures ReadExtras(Push(Push(Push(b, x0, ll.bits), x1, ml.bits), x2, of.bits), ll, ml, of)
      == Some((RawSeq(ll.base + x0, ml.base + x1, of.base + x2), b))
  {
    PopThree(b, x0, ll.bits, x1, ml.bits, x2, of.bits);
  }

  lemma PushAsThree(b: BitStack, x: nat, n0: nat, n1: nat, n2: nat)
    requires b.Valid() && x < Pow2(n0 + n1 + n2)
    ensures Shr(x, n0 + n1) < Pow2(n2)
    ensures Push(b, x, n0 + n1 + n2)
      == Push(Push(Push(b, Low(x, n0), n0), Low(Shr(x, n0), n1), n1), Shr(x, n0 + n1), n2)
  {
    ShrBelow(x, n2, n0 + n1);
    SplitThree(x, n0, n1);
    PushThree(b, Low(x, n0), n0, Low(Shr(x, n0), n1), n1, Shr(x, n0 + n1), n2);
  }

  /** Extra bits in one push read back as the values they are made of. */
  lemma ExtrasRoundTrip(b: BitStack, x: nat, n: nat, ll: Extra, ml: Extra, of: Extra)
    requires b.Valid() && n == ll.bits + ml.bits + of.bits && x < Pow2(n) && of.base > 0
    ensures ReadExtras(Push(b, x, n), ll, ml, of) == Some((ValueWith(x, ll, ml, of), b))
  {
    hide Shl, Shr, Low, Pow2, Push, Top, Rest, ReadExtras;
    PushAsThree(b, x, ll.bits, ml.bits, of.bits);
    var x0, x1, x2 := Low(x, ll.bits), Low(Shr(x, ll.bits), ml.bits), Shr(x, ll.bits + ml.bits);
    ReadThree(b, x0, x1, x2, ll, ml, of);
    assert Push(b, x, n) == Push(Push(Push(b, x0, ll.bits), x1, ml.bits), x2, of.bits);
    assert ValueWith(x, ll, ml, of) == RawSeq(ll.base + x0, ml.base + x1, of.base + x2);
  }

  /** The states' low bits read back as the states they were taken from. */
  lemma StatesRoundTrip(b: BitStack, llE: SeqEntry, mlE: SeqEntry, ofE: SeqEntry, ll: nat, ml: nat, of: nat)
    requires b.Valid() && ll < Pow2(llE.bits) && ml < Pow2(mlE.bits) && of < Pow2(ofE.bits)
    ensures ReadStates(Push(Push(Push(b, of, ofE.bits), ml, mlE.bits), ll, llE.bits), llE, mlE, ofE)
      == Some(DecState(b, llE.base + ll, ofE.base + of, mlE.base + ml))
  {
    PopThree(b, of, ofE.bits, ml, mlE.bits, ll, llE.bits);
  }

  /** The encoder's states are on cells of the sequence it wrote last. */
  ghost predicate OnCells(e: EncState, p: PackedSeq, f: Fields)
    requires FieldsLinked(f) && EncReady(e, f)
  {
    && f.ll.syms[e.ll - Pow2(f.ll.log)] == p.llC
    && f.of.syms[e.of - Pow2(f.of.log)] == p.ofC
    && f.ml.syms[e.ml - Pow2(f.ml.log)] == p.mlC
  }

  lemma LastOnCells(p: PackedSeq, f: Fields)
    requires FieldsLinked(f) && Packed(p, f)
    ensures OnCells(EncodeLast(p, f), p, f)
  {
    var i := FieldInit(f.ll, p.llC);
    var j := FieldInit(f.of, p.ofC);
    var k := FieldInit(f.ml, p.mlC);
  }

  lemma NextOnCells(e: EncState, p: PackedSeq, f: Fields)
    requires FieldsLinked(f) && Packed(p, f) && EncReady(e, f)
    ensures OnCells(EncodeNext(e, p, f), p, f)
  {
    var i := FieldStep(f.of, p.ofC, e.of);
    var j := FieldStep(f.ml, p.mlC, e.ml);
    var k := FieldStep(f.ll, p.llC, e.ll);
  }

  /** The decoder that meets the encoder there. */
  ghost function Mirror(e: EncState, f: Fields): DecState
    requires EncReady(e, f)
  {
    DecState(e.bits, e.ll - Pow2(f.ll.log), e.of - Pow2(f.of.log), e.ml - Pow2(f.ml.log))
  }

  lemma MirrorInTables(e: EncState, f: Fields)
    requires FieldsLinked(f) && EncReady(e, f)
    ensures TablesReady(TablesOf(f)) && InTables(Mirror(e, f), TablesOf(f))
  {
    LinkedTablesReady(f);
  }

  /** The rows the mirror stands on hold the packed sequence's extra bits. */
  lemma MirrorRows(e: EncState, p: PackedSeq, f: Fields)
    requires FieldsLinked(f) && Packed(p, f) && EncReady(e, f) && OnCells(e, p, f)
    ensures var d := Mirror(e, f);
      && d.ll < |f.ll.table| && f.ll.table[d.ll].extra == LlExtra(p.llC)
      && d.of < |f.of.table| && f.of.table[d.of].extra == OfExtra(p.ofC)
      && d.ml < |f.ml.table| && f.ml.table[d.ml].extra == MlExtra(p.mlC)
  {
    var d := Mirror(e, f);
    RowMatches(f.ll, |f.ll.syms|, d.ll);
    RowMatches(f.of, |f.of.syms|, d.of);
    RowMatches(f.ml, |f.ml.syms|, d.ml);
  }

  /** Decoding on given rows, whatever the tables. */
  lemma DecodeOn(d: DecState, t: SeqTables, raw: RawSeq, b: BitStack, d': DecState)
    requires TablesReady(t) && InTables(d, t) && b.Valid()
    requires ReadExtras(d.bits, t.ll[d.ll].extra, t.ml[d.ml].extra, t.of[d.of].extra) == Some((raw, b))
    ensures DecodeOne(d, t, false) == Some((raw, d.(bits := b)))
    ensures ReadStates(b, t.ll[d.ll], t.ml[d.ml], t.of[d.of]) == Some(d')
      ==> DecodeOne(d, t, true) == Some((raw, d'))
  {
  }

  lemma DecodeLast(p: PackedSeq, f: Fields)
    requires FieldsLinked(f) && Packed(p, f)
    ensures var e := EncodeLast(p, f);
      TablesReady(TablesOf(f)) && InTables(Mirror(e, f), TablesOf(f))
      && DecodeOne(Mirror(e, f), TablesOf(f), false)
        == Some((ValueOf(p), Mirror(e, f).(bits := EMPTY)))
  {
    hide Shl, Shr, Low, Pow2, Push, Top, Rest, ReadExtras, Linked, CellCount, LlExtra, MlExtra, OfExtra;
    var e := EncodeLast(p, f);
    LastOnCells(p, f);
    MirrorInTables(e, f);
    MirrorRows(e, p, f);
    ExtrasRoundTrip(EMPTY, p.extraBits, p.extraNbits, LlExtra(p.llC), MlExtra(p.mlC), OfExtra(p.ofC));
    DecodeOn(Mirror(e, f), TablesOf(f), ValueOf(p), EMPTY, Mirror(e, f));
  }

  lemma DecodeNext(e: EncState, p: PackedSeq, f: Fields)
    requires FieldsLinked(f) && Packed(p, f) && EncReady(e, f)
    ensures var e' := EncodeNext(e, p, f);
      TablesReady(TablesOf(f)) && InTables(Mirror(e', f), TablesOf(f))
      && DecodeOne(Mirror(e', f), TablesOf(f), true) == Some((ValueOf(p), Mirror(e, f)))
  {
    hide Shl, Shr, Low, Pow2, Push, Top, Rest, ReadExtras, ReadStates, DecodeOne, Linked, Transit1;
    hide TablesReady, InTables, LlExtra, MlExtra, OfExtra;
    var e' := EncodeNext(e, p, f);
    NextOnCells(e, p, f);
    MirrorInTables(e', f);
    MirrorRows(e', p, f);
    var of := Transit1(f.of.coder, p.ofC, e.of);
    var ml := Transit1(f.ml.coder, p.mlC, e.ml);
    var ll := Transit1(f.ll.coder, p.llC, e.ll);
    StepRow(f.of, p.ofC, e.of);
    StepRow(f.ml, p.mlC, e.ml);
    StepRow(f.ll, p.llC, e.ll);
    var b := Push(Push(Push(e.bits, of.out, of.bits), ml.out, ml.bits), ll.out, ll.bits);
    ExtrasRoundTrip(b, p.extraBits, p.extraNbits, LlExtra(p.llC), MlExtra(p.mlC), OfExtra(p.ofC));
    var d' := Mirror(e', f);
    StatesRoundTrip(e.bits, f.ll.table[d'.ll], f.ml.table[d'.ml], f.of.table[d'.of], ll.out, ml.out, of.out);
    DecodeOn(d', TablesOf(f), ValueOf(p), b, Mirror(e, f));
  }

  /** The row a transition lands on, as the decoder will read it. */
  lemma StepRow(f: Field, code: nat, state: nat)
    requires Linked(f) && Usable(f, code) && StateOf(f, state) && CoderReady(f.coder)
    ensures var t := Transit1(f.coder, code, state);
      && Pow2(f.log) <= t.next < 2 * Pow2(f.log)
      && t.out < Pow2(t.bits) && f.table[t.next - Pow2(f.log)].bits == t.bits
      && f.table[t.next - Pow2(f.log)].base + t.out == state - Pow2(f.log)
  {
    var i := FieldStep(f, code, state);
  }

  ghost predicate CodesInRange(p: seq<PackedSeq>) {
    forall i :: 0 <= i < |p| ==> p[i].llC <= LL_MAX && p[i].mlC <= ML_MAX && p[i].ofC <= OF_MAX
  }

  lemma PackedInRange(p: seq<PackedSeq>, f: Fields)
    requires FieldsLinked(f) && AllPacked(p, f)
    ensures CodesInRange(p)
  {
  }

  ghost function Values(p: seq<PackedSeq>, k: nat): (v: seq<RawSeq>)
    requires k <= |p| && CodesInRange(p)
    decreases |p| - k
  {
    if k == |p| then [] else [ValueOf(p[k])] + Values(p, k + 1)
  }

  lemma {:induction false} DecodeFrom(p: seq<PackedSeq>, k: nat, f: Fields)
    requires FieldsLinked(f) && AllPacked(p, f) && k < |p|
    ensures TablesReady(TablesOf(f)) && InTables(Mirror(EncodeFrom(p, k, f), f), TablesOf(f))
    ensures CodesInRange(p)
    ensures DecodeMany(Mirror(EncodeFrom(p, k, f), f), TablesOf(f), |p| - k) == Some(Values(p, k))
    decreases |p| - k
  {
    PackedInRange(p, f);
    hide FieldsLinked, DecodeOne, CellCount, EncReady, InTables, TablesReady, EncodeLast, EncodeNext, ValueOf;
    MirrorInTables(EncodeFrom(p, k, f), f);
    if k == |p| - 1 {
      DecodeLast(p[k], f);
      assert Values(p, |p|) == [] && Values(p, k) == [ValueOf(p[k])];
      assert EncodeFrom(p, k, f) == EncodeLast(p[k], f);
    } else {
      DecodeFrom(p, k + 1, f);
      DecodeNext(EncodeFrom(p, k + 1, f), p[k], f);
    }
  }

  lemma StatesOpen(e: EncState, f: Fields)
    requires FieldsLinked(f) && EncReady(e, f)
    ensures TablesReady(TablesOf(f))
    ensures OpenStates(EncodeStates(e, f), TablesOf(f)) == Some(Mirror(e, f))
  {
    hide Shl, Shr, Low, Pow2, Push, Top, Rest, Linked, TablesReady;
    LinkedTablesReady(f);
    PopThree(e.bits, e.ml - Pow2(f.ml.log), f.ml.log, e.of - Pow2(f.of.log), f.of.log,
             e.ll - Pow2(f.ll.log), f.ll.log);
  }

  /** The sequences bitstream round trip: whatever the three tables, in FSE or
      RLE mode, the decoder reads back every sequence in order and ends with
      exactly no bit left. */
  lemma StreamRoundTrip(p: seq<PackedSeq>, f: Fields)
    requires FieldsLinked(f) && AllPacked(p, f)
    ensures TablesReady(TablesOf(f))
    ensures CodesInRange(p)
    ensures DecodeStream(Stream(p, f), TablesOf(f), |p|) == Some(Values(p, 0))
  {
    StatesOpen(EncodeFrom(p, 0, f), f);
    DecodeFrom(p, 0, f);
  }
}
