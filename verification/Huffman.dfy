/** Huffman-coded literals (section 4.2 of RFC 8878), one symbol at a time, and
    the tail decoder, which finishes every stream. */
module Huffman {
  import opened Arith
  import opened Bits
  import opened Wrappers
  import opened SeqReader
  import opened ReverseReader

  const MAX_TABLE_LOG: nat := 11

  datatype HufEntry = HufEntry(symbol: byte, bits: nat)

  /** A decoding table: rows for every value of `log` bits. */
  datatype HufTable = HufTable(rows: seq<HufEntry>, log: nat) {
    ghost predicate Valid() {
      && 1 <= log <= MAX_TABLE_LOG && |rows| == Pow2(log)
      && forall i :: 0 <= i < |rows| ==> 1 <= rows[i].bits <= log
    }
  }

  // ----- the specification -----

  /** The next `log` bits; past the stream's start they are zeros. */
  function Peek(b: BitStack, log: nat): (i: nat)
    requires b.Valid()
    ensures i < Pow2(log)
  {
    if b.len >= log then Top(b, log)
    else
      ShlBelow(b.v, b.len, log - b.len);
      Shl(b.v, log - b.len)
  }

  function EntryAt(t: HufTable, b: BitStack): (e: HufEntry)
    requires t.Valid() && b.Valid()
    ensures 1 <= e.bits <= t.log
  {
    t.rows[Peek(b, t.log)]
  }

  /** `n` symbols that take every bit of the stream, or none. */
  function Symbols(t: HufTable, b: BitStack, n: nat): (r: Option<seq<byte>>)
    requires t.Valid() && b.Valid()
    ensures r.Some? ==> |r.value| == n
    decreases n
  {
    if n == 0 then (if b.len == 0 then Some([]) else None)
    else
      var e := EntryAt(t, b);
      if b.len == 0 || e.bits > b.len then None
      else
        match Symbols(t, Rest(b, e.bits), n - 1)
        case None => None
        case Some(rest) => Some([e.symbol] + rest)
  }

  /** A stream's symbols. */
  function StreamSymbols(t: HufTable, data: seq<byte>, n: nat): Option<seq<byte>>
    requires t.Valid()
  {
    if Marked(data) then Symbols(t, Unmark(data), n) else None
  }

  /** `done` followed by what is still to come. */
  function After(done: seq<byte>, rest: Option<seq<byte>>): Option<seq<byte>> {
    if rest.Some? then Some(done + rest.value) else None
  }

  lemma AfterStep(t: HufTable, b: BitStack, n: nat, done: seq<byte>)
    requires t.Valid() && b.Valid() && n > 0 && EntryAt(t, b).bits <= b.len
    ensures After(done, Symbols(t, b, n)) ==
      After(done + [EntryAt(t, b).symbol], Symbols(t, Rest(b, EntryAt(t, b).bits), n - 1))
  {
    hide EntryAt, Rest;
    var e := EntryAt(t, b);
    match Symbols(t, Rest(b, e.bits), n - 1)
    case None =>
    case Some(rest) =>
      assert done + ([e.symbol] + rest) == done + [e.symbol] + rest;
  }

  // ----- decoding with the reverse reader -----

  /** What a reader still has to give: the decoded part and the rest make the
      whole. */
  ghost predicate Decoding(whole: Option<seq<byte>>, t: HufTable, data: seq<byte>, left: nat, n: nat, done: seq<byte>)
    requires t.Valid()
  {
    |done| <= n && whole == After(done, Symbols(t, At(data, left), n - |done|))
  }

  lemma DecodingStep(whole: Option<seq<byte>>, t: HufTable, data: seq<byte>, left: nat, n: nat, done: seq<byte>)
    requires t.Valid() && Decoding(whole, t, data, left, n, done) && |done| < n
    requires EntryAt(t, At(data, left)).bits <= left
    ensures var e := EntryAt(t, At(data, left)); Decoding(whole, t, data, left - e.bits, n, done + [e.symbol])
  {
    hide EntryAt, Symbols, At;
    AtLen(data, left);
    AfterStep(t, At(data, left), n - |done|, done);
    RestAt(data, left, EntryAt(t, At(data, left)).bits);
  }

  /** The next code in a container, when the stream has its bits: a double shift
      reads the peeked row. */
  lemma PeekInContainer(data: seq<byte>, ptr: nat, consumed: nat, log: nat)
    requires ptr < |data| && (ptr == 0 || ptr + 8 <= |data|) && 64 - 8 * |data| <= consumed
    requires consumed + log <= 64
    ensures 8 * ptr + 64 - consumed >= log
    ensures DoubleShift(Load(data, ptr), consumed, log) == Peek(At(data, 8 * ptr + 64 - consumed), log)
  {
    hide Shl, Shr, Low, LE, Pow2;
    var left := 8 * ptr + 64 - consumed;
    DoubleShiftReads(Load(data, ptr), consumed, log);
    RestAt(data, left, log);
    if log > 0 {
      LoadField(data, ptr, 64 - consumed - log, log);
    } else {
      LowZero(Shr(Load(data, ptr), 64 - consumed));
      LowZero(Shr(LE(data), left));
    }
  }

  /** Past the stream's start the shift reads zeros. */
  lemma PeekPastStart(data: seq<byte>, consumed: nat, log: nat)
    requires |data| > 0 && 64 - 8 * |data| <= consumed < 64 && 64 - consumed < log <= 64
    ensures DoubleShift(Load(data, 0), consumed, log) == Peek(At(data, 64 - consumed), log)
  {
    hide Shl, Shr, Low, LE, Pow2;
    var left := 64 - consumed;
    ShiftOut(Load(data, 0), consumed, log);
    LoadField(data, 0, 0, left);
    ShrZero(Load(data, 0));
    ShrZero(LE(data));
  }

  /** The bits left after `consumed`, moved to the top and down again. */
  lemma ShiftOut(container: nat, consumed: nat, log: nat)
    requires consumed < 64 && 64 - consumed < log <= 64
    ensures DoubleShift(container, consumed, log) == Shl(Low(container, 64 - consumed), log - (64 - consumed))
  {
    hide Shl, Shr, Low, Pow2;
    var top: nat := 64 - consumed;
    SplitAt(container, top);
    ShlAdd(Low(container, top), Shl(Shr(container, top), top), consumed);
    ShlShl(Shr(container, top), top, consumed);
    LowAdd(Shl(Low(container, top), consumed), Shr(container, top), 64, 64);
    ShlBelow(Low(container, top), top, consumed);
    LowOfSmall(Shl(Low(container, top), consumed), 64);
    ShrOfShl(Low(container, top), consumed, 64 - log);
  }
}
