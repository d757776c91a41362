/** The decoder's side of the sequences bitstream: one 64-bit word per
    sequence and a single wrapping counter, proved to read exactly the stack's
    fields, and to reject every stream that does not hold them exactly. */
module SeqReader {
  import opened Arith
  import opened Bits
  import opened Wrappers
  import opened SeqCodes
  import opened SeqStream
  import opened RepOffsets

  /** Fewest unread bits a word holds while the stream has that many. */
  const WORD_BITS: nat := 57

  /** Most extra bits a sequence reads before its literal length without a
      second word. */
  const MID_RELOAD_THRESHOLD: nat := 31

  type usize = x: nat | x < 0x1_0000_0000_0000_0000

  function WrappingSub(a: usize, b: usize): usize {
    if a >= b then a - b else a - b + 0x1_0000_0000_0000_0000
  }

  function WrappingAdd(a: usize, b: usize): usize {
    if a + b < 0x1_0000_0000_0000_0000 then a + b else a + b - 0x1_0000_0000_0000_0000
  }

  /** Slices are shorter than 2^57 bytes, so that their bits can be counted. */
  predicate Addressable(src: seq<byte>) {
    |src| < 0x200_0000_0000_0000
  }

  datatype SeqBits = SeqBits(left: usize)

  /** Eight bytes from `pos` on, their low `avail` bits unread. */
  datatype Word = Word(container: nat, avail: usize, pos: nat)

  /** Opens `src`, or none when it is empty or ends without a marker bit. */
  function Open(src: seq<byte>): (b: Option<SeqBits>)
    requires Addressable(src)
    ensures b.Some? <==> Marked(src)
    ensures b.Some? ==> b.value.left == Unmark(src).len
  {
    if |src| == 0 || src[|src| - 1] == 0 then None
    else
      ByteHighBit(src[|src| - 1]);
      var leadingZeros := 7 - HighBit(src[|src| - 1]);
      Some(SeqBits(8 * |src| - (leadingZeros + 1)))
  }

  /** The word holding the next `WORD_BITS` unread bits, or all of them near the
      start. A wrapped count reads any word. */
  function WordAt(b: SeqBits, src: seq<byte>): (w: Word)
    requires Addressable(src) && |src| >= 8
    ensures w.pos + 8 <= |src| && w.container == LE(src[w.pos..w.pos + 8])
  {
    var pos := Min(if b.left < WORD_BITS then 0 else (b.left - WORD_BITS) / 8, |src| - 8);
    Word(LE(src[pos..pos + 8]), WrappingSub(b.left, 8 * pos), pos)
  }

  /** A read of `count <= 31` bits: its value and the word after it. */
  function Read(w: Word, count: nat): (nat, Word)
    requires count <= 31
  {
    var start := WrappingSub(w.avail, count);
    (BitAnd(Shr(w.container, Low(start, 6)), Pow2(count) - 1), w.(avail := start))
  }

  /** The reader after a word's reads. */
  function BitsOf(w: Word): SeqBits
    requires w.pos < 0x200_0000_0000_0000
  {
    SeqBits(WrappingAdd(8 * w.pos, w.avail))
  }

  // ----- exactness -----

  /** The counter stands for `r` unread bits; below zero, bits were read that
      the stream does not have. */
  ghost predicate Tracks(left: usize, r: int) {
    -0x1000_0000_0000_0000 <= r <= 0x1000_0000_0000_0000
    && left == if r >= 0 then r else r + 0x1_0000_0000_0000_0000
  }

  /** The low `r` bits of `src`. */
  ghost function At(src: seq<byte>, r: nat): (b: BitStack)
    ensures b.Valid()
  {
    BitStack(Low(LE(src), r), r)
  }

  /** The word's counter stands for `r`, and its reads are good for `budget`
      more bits, or until the stream's start. */
  ghost predicate Holds(w: Word, src: seq<byte>, r: int, budget: int) {
    && Addressable(src) && w.pos + 8 <= |src| && w.container == LE(src[w.pos..w.pos + 8])
    && Tracks(BitsOf(w).left, r)
    && (r >= 0 ==> r <= 8 * w.pos + 64)
    && (r < 0 || w.pos == 0 || r - 8 * w.pos >= budget)
  }

  lemma WordHolds(b: SeqBits, src: seq<byte>, r: int)
    requires Addressable(src) && |src| >= 8 && Tracks(b.left, r) && r <= 8 * |src|
    ensures Holds(WordAt(b, src), src, r, WORD_BITS)
  {
  }

  /** What is left below a pop. */
  lemma RestAt(src: seq<byte>, r: nat, n: nat)
    requires n <= r
    ensures Rest(At(src, r), n) == At(src, r - n)
    ensures Top(At(src, r), n) == Low(Shr(LE(src), r - n), n)
  {
    hide Low, Shr, LE, Pow2;
    LowLow(LE(src), r - n, r);
    ShrLow(LE(src), r - n, n);
  }

  /** Bits of the whole stream, read from a word that holds them. */
  lemma WordField(src: seq<byte>, pos: nat, start: nat, n: nat)
    requires pos + 8 <= |src| && start + n <= 64
    ensures Low(Shr(LE(src[pos..pos + 8]), start), n) == Low(Shr(LE(src), 8 * pos + start), n)
  {
    hide Shr, Low, LE, Pow2;
    LESlice(src, pos, pos + 8);
    ShrLow(Shr(LE(src), 8 * pos), start, 64 - start);
    ShrShr(LE(src), 8 * pos, start);
    LowLow(Shr(LE(src), 8 * pos + start), n, 64 - start);
  }

  /** A read within the budget takes its bits off the counter. */
  lemma ReadCounts(w: Word, src: seq<byte>, r: int, budget: int, count: nat)
    requires Holds(w, src, r, budget) && count <= 31 && count <= budget && r >= -0x800_0000_0000_0000
    ensures Holds(Read(w, count).1, src, r - count, budget - count)
    ensures r >= count ==> WrappingSub(w.avail, count) == r - count - 8 * w.pos <= 64 - count
  {
    hide Shr, Low, LE, Pow2, BitAnd;
  }

  /** And its value is exact as long as the stream has them. */
  lemma ReadExact(w: Word, src: seq<byte>, r: int, budget: int, count: nat)
    requires Holds(w, src, r, budget) && count <= 31 && count <= budget && r >= -0x800_0000_0000_0000
    ensures Holds(Read(w, count).1, src, r - count, budget - count)
    ensures Read(w, count).0 < Pow2(count)
    ensures r >= count ==> Read(w, count).0 == Top(At(src, r), count) && Rest(At(src, r), count) == At(src, r - count)
  {
    ReadCounts(w, src, r, budget, count);
    var start := WrappingSub(w.avail, count);
    AndMask(Shr(w.container, Low(start, 6)), count);
    if r >= count {
      FieldExact(w, src, r, count, start);
    }
  }

  lemma FieldExact(w: Word, src: seq<byte>, r: nat, count: nat, start: nat)
    requires w.pos + 8 <= |src| && w.container == LE(src[w.pos..w.pos + 8])
    requires start == r - count - 8 * w.pos <= 64 - count
    ensures Low(Shr(w.container, Low(start, 6)), count) == Top(At(src, r), count)
    ensures Rest(At(src, r), count) == At(src, r - count)
  {
    hide Shr, LE;
    RestAt(src, r, count);
    if count > 0 {
      SmallShift(start);
      WordField(src, w.pos, start, count);
    }
  }

  lemma SmallShift(x: nat)
    requires x < 64
    ensures Low(x, 6) == x
  {
    Pow2Values();
    LowOfSmall(x, 6);
  }

  // ----- one sequence -----

  lemma HoldsLess(w: Word, src: seq<byte>, r: int, budget: int, less: int)
    requires Holds(w, src, r, budget) && less <= budget
    ensures Holds(w, src, r, less)
  {
  }

  /** Whether a word-level read agrees with the stack's: the same value and the
      bits below it, or none when the stream ran out. */
  ghost predicate Agrees<T(!new)>(spec: Option<(T, BitStack)>, value: T, src: seq<byte>, r: int) {
    match spec
    case None => r < 0
    case Some((v, b)) => r >= 0 && v == value && b == At(src, r)
  }

  /** A sequence's extra bits from its word, with a second word when they could
      exhaust the first. */
  function ExtraBits(w: Word, src: seq<byte>, llX: Extra, mlX: Extra, ofX: Extra): (r: (RawSeq, Word))
    requires Addressable(src) && |src| >= 8 && w.pos + 8 <= |src|
    requires llX.bits <= 16 && mlX.bits <= 16 && ofX.bits <= 31 && ofX.base > 0
    ensures r.0.offsetValue > 0 && r.1.pos + 8 <= |src|
  {
    var (of, w1) := Read(w, ofX.bits);
    var (ml, w2) := Read(w1, mlX.bits);
    var (ll, w3) := Read(if llX.bits + mlX.bits + ofX.bits > MID_RELOAD_THRESHOLD then WordAt(BitsOf(w2), src) else w2, llX.bits);
    (RawSeq(llX.base + ll, mlX.base + ml, ofX.base + of), w3)
  }

  /** They are exact while the stream has them, and 26 more bits are good. */
  lemma ExtraBitsExact(w: Word, src: seq<byte>, llX: Extra, mlX: Extra, ofX: Extra, r: int) returns (r': int)
    requires Holds(w, src, r, WORD_BITS) && |src| >= 8 && -0x400_0000_0000_0000 <= r <= 8 * |src|
    requires llX.bits <= 16 && mlX.bits <= 16 && ofX.bits <= 31 && ofX.base > 0
    ensures r' == r - ofX.bits - mlX.bits - llX.bits && Holds(ExtraBits(w, src, llX, mlX, ofX).1, src, r', 26)
    ensures r >= 0 ==> Agrees(ReadExtras(At(src, r), llX, mlX, ofX), ExtraBits(w, src, llX, mlX, ofX).0, src, r')
  {
    hide BitAnd, Shr, Low, Pow2, LE, Rest, Top, Read;
    ReadExact(w, src, r, WORD_BITS, ofX.bits);
    var (of, w1) := Read(w, ofX.bits);
    ReadExact(w1, src, r - ofX.bits, WORD_BITS - ofX.bits, mlX.bits);
    var (ml, w2) := Read(w1, mlX.bits);
    r' := r - ofX.bits - mlX.bits;
    var budget := WORD_BITS - ofX.bits - mlX.bits;
    if llX.bits + mlX.bits + ofX.bits > MID_RELOAD_THRESHOLD {
      WordHolds(BitsOf(w2), src, r');
      w2 := WordAt(BitsOf(w2), src);
      budget := WORD_BITS;
    }
    ReadExact(w2, src, r', budget, llX.bits);
    var (ll, w3) := Read(w2, llX.bits);
    r' := r' - llX.bits;
    HoldsLess(w3, src, r', budget - llX.bits, 26);
  }

  /** The three states. */
  datatype States = States(ll: nat, of: nat, ml: nat)

  ghost predicate StatesIn(s: States, t: SeqTables) {
    s.ll < |t.ll| && s.of < |t.of| && s.ml < |t.ml|
  }

  lemma ReadBelow(w: Word, count: nat)
    requires count <= 31
    ensures Read(w, count).0 < Pow2(count)
  {
    hide Shr, Low, Pow2, BitAnd, WrappingSub;
    AndMask(Shr(w.container, Low(WrappingSub(w.avail, count), 6)), count);
  }

  /** The next states' bits, at most 26: literal length, match length, offset. */
  function StateBits(w: Word, llE: SeqEntry, mlE: SeqEntry, ofE: SeqEntry): (r: (States, Word))
    requires llE.bits <= 9 && mlE.bits <= 9 && ofE.bits <= 8
    ensures r.1.pos == w.pos
    ensures r.0.ll < llE.base + Pow2(llE.bits) && r.0.ml < mlE.base + Pow2(mlE.bits) && r.0.of < ofE.base + Pow2(ofE.bits)
  {
    hide BitAnd, Shr, Low, Pow2;
    var (ll, w1) := Read(w, llE.bits);
    var (ml, w2) := Read(w1, mlE.bits);
    var (of, w3) := Read(w2, ofE.bits);
    ReadBelow(w, llE.bits);
    ReadBelow(w1, mlE.bits);
    ReadBelow(w2, ofE.bits);
    (States(llE.base + ll, ofE.base + of, mlE.base + ml), w3)
  }

  lemma StateBitsExact(w: Word, src: seq<byte>, llE: SeqEntry, mlE: SeqEntry, ofE: SeqEntry, r: int) returns (r': int)
    requires Holds(w, src, r, 26) && -0x600_0000_0000_0000 <= r
    requires llE.bits <= 9 && mlE.bits <= 9 && ofE.bits <= 8
    ensures r' == r - llE.bits - mlE.bits - ofE.bits && Holds(StateBits(w, llE, mlE, ofE).1, src, r', 0)
    ensures r >= 0 ==> match ReadStates(At(src, r), llE, mlE, ofE)
      case None => r' < 0
      case Some(d) => var s := StateBits(w, llE, mlE, ofE).0; r' >= 0 && d == DecState(At(src, r'), s.ll, s.of, s.ml)
  {
    hide BitAnd, Shr, Low, Pow2, LE, Rest, Top, Read;
    ReadExact(w, src, r, 26, llE.bits);
    var (llX, w1) := Read(w, llE.bits);
    ReadExact(w1, src, r - llE.bits, 26 - llE.bits, mlE.bits);
    var (mlX, w2) := Read(w1, mlE.bits);
    r' := r - llE.bits - mlE.bits;
    var budget := 26 - llE.bits - mlE.bits;
    ReadExact(w2, src, r', budget, ofE.bits);
    var (ofX, w3) := Read(w2, ofE.bits);
    r' := r' - ofE.bits;
    HoldsLess(w3, src, r', budget - ofE.bits, 0);
  }

  /** A state as a table index: the source masks it to the table's capacity. */
  function Index(state: nat): nat {
    Low(state, 9)
  }

  lemma IndexInTable(state: nat, t: seq<SeqEntry>, log: nat, maxLog: nat, maxExtra: nat)
    requires TableReady(t, log, maxLog, maxExtra) && maxLog <= 9 && state < |t|
    ensures Index(state) == state
  {
    Pow2Mono(log, 9);
    LowOfSmall(state, 9);
  }

  /** One sequence's values, the reader after it and the states. It is defined past
      the stream's end too, where the source executes whatever the words hold. */
  function DecodeWord(b: SeqBits, src: seq<byte>, t: SeqTables, s: States, update: bool): (r: (RawSeq, SeqBits, States))
    requires TablesReady(t) && StatesIn(s, t) && Addressable(src) && |src| >= 8
    ensures r.0.offsetValue > 0 && StatesIn(r.2, t)
  {
    hide Low, LE, Read, WordAt, Pow2;
    IndexInTable(s.of, t.of, t.ofLog, 8, 31);
    IndexInTable(s.ml, t.ml, t.mlLog, 9, 16);
    IndexInTable(s.ll, t.ll, t.llLog, 9, 16);
    var ofE, mlE, llE := t.of[Index(s.of)], t.ml[Index(s.ml)], t.ll[Index(s.ll)];
    var (raw, w) := ExtraBits(WordAt(b, src), src, llE.extra, mlE.extra, ofE.extra);
    if update then
      var (s', w') := StateBits(w, llE, mlE, ofE);
      (raw, BitsOf(w'), s')
    else (raw, BitsOf(w), s)
  }

  /** It is the stack's sequence while the stream has its bits; after that the
      counter only sinks further below zero. */
  lemma DecodeWordExact(b: SeqBits, src: seq<byte>, t: SeqTables, s: States, update: bool, r: int) returns (r': int)
    requires TablesReady(t) && StatesIn(s, t) && Addressable(src) && |src| >= 8
    requires Tracks(b.left, r) && -0x400_0000_0000_0000 <= r <= 8 * |src|
    ensures var (raw', b', s') := DecodeWord(b, src, t, s, update);
      && Tracks(b'.left, r') && r - 89 <= r' <= r
      && (r >= 0 ==>
        match DecodeOne(DecState(At(src, r), s.ll, s.of, s.ml), t, update)
        case None => r' < 0
        case Some((raw, d)) => r' >= 0 && raw == raw' && d == DecState(At(src, r'), s'.ll, s'.of, s'.ml))
  {
    hide Low, LE, ReadExtras, ReadStates, WordAt, BitsOf, ExtraBits, StateBits, At, Pow2;
    IndexInTable(s.of, t.of, t.ofLog, 8, 31);
    IndexInTable(s.ml, t.ml, t.mlLog, 9, 16);
    IndexInTable(s.ll, t.ll, t.llLog, 9, 16);
    var ofE, mlE, llE := t.of[Index(s.of)], t.ml[Index(s.ml)], t.ll[Index(s.ll)];
    WordHolds(b, src, r);
    r' := ExtraBitsExact(WordAt(b, src), src, llE.extra, mlE.extra, ofE.extra, r);
    if update {
      r' := StateBitsExact(ExtraBits(WordAt(b, src), src, llE.extra, mlE.extra, ofE.extra).1, src, llE, mlE, ofE, r');
    }
  }

  /** The three states and the repeat offsets. */
  class SeqDecoder {
    var llState: nat
    var ofState: nat
    var mlState: nat
    var rep: Reps

    function Current(): States
      reads this
    {
      States(llState, ofState, mlState)
    }

    /** The states index the tables, whatever was read. */
    ghost predicate Valid(t: SeqTables)
      reads this
    {
      TablesReady(t) && StatesIn(Current(), t)
    }

    constructor (s: States, reps: Reps)
      ensures Current() == s && rep == reps
    {
      llState, ofState, mlState, rep := s.ll, s.of, s.ml, reps;
    }

    /** One sequence: its lengths, its offset and the reader after it. */
    method Decode(b: SeqBits, src: seq<byte>, t: SeqTables, update: bool)
      returns (b': SeqBits, ll: nat, ml: nat, offset: nat)
      requires Valid(t) && Addressable(src) && |src| >= 8
      modifies this
      ensures Valid(t)
      ensures var (raw, b1, s1) := DecodeWord(b, src, t, old(Current()), update);
        && b' == b1 && Current() == s1 && ll == raw.ll && ml == raw.ml
        && Offset(offset, rep) == DecodeOffset(raw.offsetValue, raw.ll, old(rep))
    {
      hide Low, LE, WordAt, BitsOf, Pow2, Read;
      IndexInTable(ofState, t.of, t.ofLog, 8, 31);
      IndexInTable(mlState, t.ml, t.mlLog, 9, 16);
      IndexInTable(llState, t.ll, t.llLog, 9, 16);
      var ofE, mlE, llE := t.of[Index(ofState)], t.ml[Index(mlState)], t.ll[Index(llState)];
      var (raw, w) := ExtraBits(WordAt(b, src), src, llE.extra, mlE.extra, ofE.extra);
      var o := DecodeOffset(raw.offsetValue, raw.ll, rep);
      rep := o.reps;
      ll, ml, offset := raw.ll, raw.ml, o.offset;
      if update {
        var (s, w') := StateBits(w, llE, mlE, ofE);
        llState, ofState, mlState, w := s.ll, s.of, s.ml, w';
      }
      b' := BitsOf(w);
    }
  }
}
