/** One of the four interleaved Huffman streams: its reader, its sentinel
    container and its part of the output. Every step keeps what the stream has
    decoded and still has to decode. */
module HuffmanStream {
  import opened Arith
  import opened Bits
  import opened Wrappers
  import opened SeqCodes
  import opened SeqReader
  import opened ReverseReader
  import opened Huffman

  // ----- the sentinel container -----

  /** A loaded word with its lowest bit set. */
  function Odd(word: nat): (r: nat)
    ensures r % 2 == 1 && r / 2 == word / 2
  {
    OrOne(word);
    BitOr(word, 1)
  }

  lemma OrOne(x: nat)
    ensures BitOr(x, 1) % 2 == 1 && BitOr(x, 1) / 2 == x / 2
  {
    OrCommutes(x / 2);
    assert BitOr(x, 1) == 2 * BitOr(x / 2, 0) + 1;
  }

  lemma {:induction false} OrCommutes(x: nat)
    ensures BitOr(x, 0) == x
  {
    if x > 0 {
      OrCommutes(x / 2);
    }
  }

  /** The set bit is below every code that is read. */
  lemma OddAbove(word: nat, n: nat)
    requires n > 0
    ensures Shr(Odd(word), n) == Shr(word, n)
  {
    assert Shr(Odd(word), n) == Shr(word / 2, n - 1);
  }

  lemma ShiftTwice(x: nat, a: nat, b: nat)
    ensures Shl64(Shl64(x, a), b) == Shl64(x, a + b)
  {
    hide Shl, Low, Shr, Pow2;
    var y := Shl(x, a);
    SplitAt(y, 64);
    ShlAdd(Low(y, 64), Shl(Shr(y, 64), 64), b);
    ShlShl(Shr(y, 64), 64, b);
    ShlShl(x, a, b);
    LowAdd(Shl(Low(y, 64), b), Shr(y, 64), 64, 64 + b);
  }

  lemma {:induction false} TrailingZerosShl(x: nat, k: nat)
    requires x % 2 == 1
    ensures Shl(x, k) > 0 && TrailingZeros(Shl(x, k)) == k
  {
    if k > 0 {
      TrailingZerosShl(x, k - 1);
    }
  }

  /** The trailing zeros count the bits consumed since the load. */
  lemma SentinelCounts(x: nat, k: nat)
    requires x % 2 == 1 && k < 64
    ensures Shl64(x, k) > 0 && TrailingZeros(Shl64(x, k)) == k
  {
    var low := Low(x, 64 - k);
    assert low % 2 == 1;
    SentinelShift(x, k);
    TrailingZerosShl(low, k);
  }

  lemma SentinelShift(x: nat, k: nat)
    requires k < 64
    ensures Shl64(x, k) == Shl(Low(x, 64 - k), k)
  {
    hide Shl, Low, Shr, Pow2;
    var top: nat := 64 - k;
    SplitAt(x, top);
    ShlAdd(Low(x, top), Shl(Shr(x, top), top), k);
    ShlShl(Shr(x, top), top, k);
    LowAdd(Shl(Low(x, top), k), Shr(x, top), 64, 64);
    ShlBelow(Low(x, top), top, k);
    LowOfSmall(Shl(Low(x, top), k), 64);
  }

  /** The container's top bits are the next code, or the next eleven bits. */
  lemma SentinelPeek(data: seq<byte>, p: nat, used: nat, n: nat)
    requires p + 8 <= |data| && 0 < n && used + n < 64
    ensures Shr(Shl64(Odd(LE(data[p..p + 8])), used), 64 - n) == Peek(At(data, 8 * p + 64 - used), n)
  {
    hide Shl, Low, Shr, Pow2, Odd;
    var word := LE(data[p..p + 8]);
    OddAbove(word, 64 - used - n);
    DoubleShiftReads(Odd(word), used, n);
    DoubleShiftReads(word, used, n);
    PeekInContainer(data, p, used, n);
  }

  // ----- two-symbol rows -----

  const PAIR_TABLE_LOG: nat := 11

  /** A row of two symbols, or of one: the second is then no symbol. */
  datatype PairRow = PairRow(first: byte, second: byte, bits: nat, count: nat)

  /** Rows that share their top bits are the same row. */
  ghost predicate PrefixConsistent(t: HufTable)
    requires t.Valid()
  {
    forall i, j :: 0 <= i < |t.rows| && 0 <= j < |t.rows| && SamePrefix(i, j, t.log, t.rows[i].bits) ==> t.rows[j] == t.rows[i]
  }

  ghost predicate SamePrefix(i: nat, j: nat, log: nat, bits: nat) {
    bits <= log && Shr(i, log - bits) == Shr(j, log - bits)
  }

  /** Where the code after the first `fb` bits of an index is looked up. */
  function SecondIndex(t: HufTable, index: nat, fb: nat): (i: nat)
    requires t.Valid() && index < Pow2(PAIR_TABLE_LOG)
    ensures i < |t.rows|
  {
    ShrBelow(Low(Shl(index, fb), PAIR_TABLE_LOG), t.log, PAIR_TABLE_LOG - t.log);
    Shr(Low(Shl(index, fb), PAIR_TABLE_LOG), PAIR_TABLE_LOG - t.log)
  }

  /** The row of eleven bits: their first code, and the code after it when both
      fit. */
  function PairOf(t: HufTable, index: nat): PairRow
    requires t.Valid() && index < Pow2(PAIR_TABLE_LOG)
  {
    var down: nat := PAIR_TABLE_LOG - t.log;
    ShrBelow(index, t.log, down);
    var first := t.rows[Shr(index, down)];
    var second := t.rows[SecondIndex(t, index, first.bits)];
    if first.bits + second.bits <= PAIR_TABLE_LOG then
      PairRow(first.symbol, second.symbol, first.bits + second.bits, 2)
    else
      PairRow(first.symbol, 0, first.bits, 1)
  }

  ghost predicate PairsOf(pairs: seq<PairRow>, t: HufTable)
    requires t.Valid()
  {
    |pairs| == Pow2(PAIR_TABLE_LOG) && forall i: nat :: i < |pairs| ==> pairs[i] == PairOf(t, i)
  }

  method BuildPairTable(t: HufTable) returns (pairs: seq<PairRow>)
    requires t.Valid()
    ensures PairsOf(pairs, t)
  {
    pairs := [];
    var size := Pow2(PAIR_TABLE_LOG);
    for i: nat := 0 to size
      invariant |pairs| == i && forall j: nat :: j < i ==> pairs[j] == PairOf(t, j)
    {
      pairs := pairs + [PairOf(t, i)];
    }
  }

  /** The top bits of a longer peek. */
  lemma PeekTop(b: BitStack, n: nat, m: nat)
    requires b.Valid() && n <= m <= b.len
    ensures Shr(Peek(b, m), m - n) == Peek(b, n)
  {
    hide Shr;
    ShrShr(b.v, b.len - m, m - n);
  }

  /** The top `sb` bits after a first code, from the eleven bits and from the
      stream. */
  lemma SecondPrefix(b: BitStack, log: nat, fb: nat, sb: nat)
    requires b.Valid() && log <= PAIR_TABLE_LOG && sb <= log && fb + sb <= PAIR_TABLE_LOG && b.len >= 22
    requires fb <= PAIR_TABLE_LOG
    ensures Shr(Shr(Low(Shl(Peek(b, PAIR_TABLE_LOG), fb), PAIR_TABLE_LOG), PAIR_TABLE_LOG - log), log - sb)
      == Shr(Peek(Rest(b, fb), log), log - sb)
  {
    hide Shl, Low, Shr, Pow2;
    var index := Peek(b, 11);
    ShrShr(Low(Shl(index, fb), 11), 11 - log, log - sb);
    ShrLow(Shl(index, fb), 11 - sb, sb);
    ShrShr(Shl(index, fb), fb, 11 - sb - fb);
    ShrOfShl(index, fb, fb);
    ShlZero(index);
    ShrShr(b.v, b.len - 11, 11 - sb - fb);
    // the stream's side
    var r := Rest(b, fb);
    ShrShr(r.v, r.len - log, log - sb);
    ShrLow(b.v, b.len - fb - sb, sb);
  }

  /** A pair row decodes what the single rows decode. */
  lemma PairReads(t: HufTable, b: BitStack)
    requires t.Valid() && PrefixConsistent(t) && b.Valid() && b.len >= 22
    ensures var row := PairOf(t, Peek(b, PAIR_TABLE_LOG));
      var e := EntryAt(t, b);
      && row.first == e.symbol && e.bits <= b.len
      && (row.count == 1 ==> row.bits == e.bits)
      && (row.count == 2 ==> var e2 := EntryAt(t, Rest(b, e.bits));
          row.second == e2.symbol && row.bits == e.bits + e2.bits)
      && 1 <= row.count <= 2 && row.bits <= PAIR_TABLE_LOG
  {
    hide Shl, Low, Shr, Pow2, Rest, Peek;
    var index := Peek(b, PAIR_TABLE_LOG);
    PeekTop(b, t.log, PAIR_TABLE_LOG);
    var e := EntryAt(t, b);
    var i := SecondIndex(t, index, e.bits);
    var second := t.rows[i];
    if e.bits + second.bits <= PAIR_TABLE_LOG {
      SecondPrefix(b, t.log, e.bits, second.bits);
      assert SamePrefix(i, Peek(Rest(b, e.bits), t.log), t.log, second.bits);
    }
  }

  // ----- one stream -----

  /** Symbols a round decodes and the output it needs. */
  const ROUND: nat := 5
  const PAIR_WINDOW: nat := 10

  class HufStream {
    const table: HufTable
    const data: seq<byte>
    var container: nat
    var bitsConsumed: nat
    var ptr: nat
    var sentinel: nat
    const out: array<byte>
    var at: nat

    /** What the whole stream decodes to, and the bits consumed since the
        sentinel's load. */
    ghost const whole: Option<seq<byte>>
    ghost var used: nat

    ghost predicate Fixed()
      reads this
    {
      && table.Valid() && |data| > 0 && ptr < |data| && (ptr == 0 || ptr + 8 <= |data|)
      && at <= out.Length
    }

    /** In the reader's layout. */
    ghost predicate Valid()
      reads this, out
    {
      && Fixed() && container == Load(data, ptr) && 64 - 8 * |data| <= bitsConsumed
      && bitsConsumed <= 8 * ptr + 64
      && Decoding(whole, table, data, 8 * ptr + 64 - bitsConsumed, out.Length, out[..at])
    }

    /** And ready for rounds. */
    ghost predicate Startable()
      reads this, out
    {
      Valid() && (|data| >= 8 ==> bitsConsumed < 63)
    }

    /** In the sentinel's layout. */
    ghost predicate Fast()
      reads this, out
    {
      && Fixed() && ptr + 8 <= |data| && used < 63
      && sentinel == Shl64(Odd(LE(data[ptr..ptr + 8])), used)
      && Decoding(whole, table, data, 8 * ptr + 64 - used, out.Length, out[..at])
    }

    /** Opens a stream with a marker, to fill `segment`. */
    constructor (t: HufTable, src: seq<byte>, segment: array<byte>)
      requires t.Valid() && Marked(src)
      ensures Startable()
      ensures table == t && data == src && out == segment && at == 0
      ensures whole == StreamSymbols(t, src, segment.Length)
    {
      hide Decoding, StreamSymbols, Symbols, LE, Pow2;
      ByteHighBit(src[|src| - 1]);
      var leadingZeros := 7 - HighBit(src[|src| - 1]);
      table, data, out, at := t, src, segment, 0;
      ptr := if |src| >= 8 then |src| - 8 else 0;
      container := if |src| >= 8 then LE(src[|src| - 8..]) else LE(src);
      bitsConsumed := if |src| >= 8 then leadingZeros + 1 else 64 - 8 * |src| + leadingZeros + 1;
      sentinel, used := 0, 0;
      whole := StreamSymbols(t, src, segment.Length);
      new;
      assert src[..|src|] == src;
      Opened(t, src, segment.Length);
      assert out[..0] == [];
    }

    /** The lowest position whose container is a full load. */
    function Limit(): nat {
      if |data| >= 8 then 8 else 0
    }

    /** Rounds without further checks: each takes at most seven bytes of input
        and `window` bytes of output. */
    function Rounds(window: nat): (r: nat)
      requires at <= out.Length && (window == ROUND || window == PAIR_WINDOW)
      reads this
      ensures Room(r, window)
    {
      var byOutput := if window == ROUND then (out.Length - at) / ROUND else (out.Length - at) / PAIR_WINDOW;
      var byInput := if ptr >= Limit() then (ptr - Limit()) / 7 else 0;
      Min(byOutput, byInput)
    }

    ghost predicate Room(rounds: nat, window: nat)
      reads this
      requires window == ROUND || window == PAIR_WINDOW
    {
      rounds > 0 ==>
        && ptr >= Limit() + 7 * rounds
        && at + (if window == ROUND then ROUND * rounds else PAIR_WINDOW * rounds) <= out.Length
    }

    method Enter()
      requires Startable() && ptr >= Limit() + 7
      modifies this`sentinel, this`used
      ensures Fast()
    {
      hide Shl64, Decoding, LE;
      sentinel := Shl64(Odd(container), bitsConsumed);
      used := bitsConsumed;
    }

    method Reload()
      requires Fast() && ptr >= 7
      modifies this`sentinel, this`used, this`ptr
      ensures Fast() && used <= 7 && ptr >= old(ptr) - 7
    {
      hide Shl64, Decoding, LE;
      SentinelCounts(Odd(LE(data[ptr..ptr + 8])), used);
      var consumed := TrailingZeros(sentinel);
      ptr := ptr - consumed / 8;
      sentinel := Shl64(Odd(LE(data[ptr..ptr + 8])), consumed % 8);
      used := consumed % 8;
    }

    /** One symbol from the container's top. */
    method Next(ghost done: seq<byte>) returns (symbol: byte)
      requires Fixed() && ptr + 8 <= |data| && used <= 51
      requires sentinel == Shl64(Odd(LE(data[ptr..ptr + 8])), used)
      requires Decoding(whole, table, data, 8 * ptr + 64 - used, out.Length, done) && |done| < out.Length
      modifies this`sentinel, this`used
      ensures used <= old(used) + MAX_TABLE_LOG && sentinel == Shl64(Odd(LE(data[ptr..ptr + 8])), used)
      ensures Decoding(whole, table, data, 8 * ptr + 64 - used, out.Length, done + [symbol])
    {
      hide Shl64, Decoding, LE, Peek, Odd, At;
      var left := 8 * ptr + 64 - used;
      AtLen(data, left);
      SentinelPeek(data, ptr, used, table.log);
      var e := table.rows[Shr(sentinel, 64 - table.log)];
      DecodingStep(whole, table, data, left, out.Length, done);
      ShiftTwice(Odd(LE(data[ptr..ptr + 8])), used, e.bits);
      sentinel := Shl64(sentinel, e.bits);
      used := used + e.bits;
      symbol := e.symbol;
    }

    /** Five symbols, stored at once. */
    method DecodeFive()
      requires Fast() && used <= 7 && at + ROUND <= out.Length
      modifies this`sentinel, this`used, this`at, out
      ensures Fast() && at == old(at) + ROUND
    {
      hide Shl64, Decoding, LE, Odd;
      var syms := [];
      ghost var before := out[..at];
      assert before + syms == before;
      for i := 0 to 5
        invariant |syms| == i && used <= 7 + MAX_TABLE_LOG * i
        invariant at == old(at) && out[..at] == before
        invariant sentinel == Shl64(Odd(LE(data[ptr..ptr + 8])), used)
        invariant Decoding(whole, table, data, 8 * ptr + 64 - used, out.Length, before + syms)
      {
        var s := Next(before + syms);
        assert before + syms + [s] == before + (syms + [s]);
        syms := syms + [s];
      }
      Store(syms);
      at := at + ROUND;
    }

    method Store(bytes: seq<byte>)
      requires at + |bytes| <= out.Length
      modifies out
      ensures out[..at + |bytes|] == old(out[..at]) + bytes
    {
      ghost var before := out[..at];
      for j := 0 to |bytes|
        invariant out[..at + j] == before + bytes[..j]
      {
        out[at + j] := bytes[j];
      }
    }

    /** One row of up to two symbols from the container's top. */
    method NextPair(pairs: seq<PairRow>, ghost done: seq<byte>) returns (row: PairRow)
      requires Fixed() && PrefixConsistent(table) && PairsOf(pairs, table) && ptr + 8 <= |data| && used <= 40
      requires sentinel == Shl64(Odd(LE(data[ptr..ptr + 8])), used)
      requires Decoding(whole, table, data, 8 * ptr + 64 - used, out.Length, done) && |done| + 2 <= out.Length
      modifies this`sentinel, this`used
      ensures used <= old(used) + PAIR_TABLE_LOG && sentinel == Shl64(Odd(LE(data[ptr..ptr + 8])), used)
      ensures 1 <= row.count <= 2
      ensures Decoding(whole, table, data, 8 * ptr + 64 - used, out.Length,
                       done + (if row.count == 1 then [row.first] else [row.first, row.second]))
    {
      hide Shl64, Decoding, LE, Peek, Odd, At, PairOf, PrefixConsistent;
      var left := 8 * ptr + 64 - used;
      AtLen(data, left);
      SentinelPeek(data, ptr, used, PAIR_TABLE_LOG);
      row := pairs[Shr(sentinel, 64 - PAIR_TABLE_LOG)];
      PairReads(table, At(data, left));
      PairStep(whole, table, data, left, out.Length, done, row);
      ShiftTwice(Odd(LE(data[ptr..ptr + 8])), used, row.bits);
      sentinel := Shl64(sentinel, row.bits);
      used := used + row.bits;
    }

    /** Four rows. Each stores two bytes and goes on after its symbols, so that the
        next overwrites a byte that is no symbol. */
    method DecodePairs(pairs: seq<PairRow>)
      requires Fast() && PrefixConsistent(table) && PairsOf(pairs, table) && used <= 7 && at + PAIR_WINDOW <= out.Length
      modifies this`sentinel, this`used, this`at, out
      ensures Fast() && old(at) + 4 <= at <= old(at) + 8
    {
      hide Shl64, Decoding, LE, Odd, PairsOf, PrefixConsistent;
      var o: nat := 0;
      for i := 0 to 4
        invariant i <= o <= 2 * i && used <= 7 + PAIR_TABLE_LOG * i && at == old(at)
        invariant sentinel == Shl64(Odd(LE(data[ptr..ptr + 8])), used)
        invariant Decoding(whole, table, data, 8 * ptr + 64 - used, out.Length, out[..at + o])
      {
        ghost var done := out[..at + o];
        var row := NextPair(pairs, done);
        var start := at + o % 8;
        out[start], out[start + 1] := row.first, row.second;
        o := o + row.count;
        assert out[..at + o] == done + (if row.count == 1 then [row.first] else [row.first, row.second]);
      }
      at := at + o;
    }

    /** Back to the reader's layout. */
    method Unload()
      requires Fast()
      modifies this`container, this`bitsConsumed
      ensures Startable()
    {
      hide Shl64, Decoding, LE;
      SentinelCounts(Odd(LE(data[ptr..ptr + 8])), used);
      bitsConsumed := TrailingZeros(sentinel);
      container := LE(data[ptr..ptr + 8]);
    }

    /** One symbol in the reader's layout, from a container that has the bits. */
    method DecodeOne()
      requires Valid() && bitsConsumed + table.log <= 64 && at < out.Length
      modifies this`bitsConsumed, this`at, out
      ensures Valid() && at == old(at) + 1 && bitsConsumed <= old(bitsConsumed) + table.log
    {
      hide Decoding, LE, Peek, At, Shl64, Shr, Symbols, Load;
      var left := 8 * ptr + 64 - bitsConsumed;
      AtLen(data, left);
      PeekInContainer(data, ptr, bitsConsumed, table.log);
      var e := table.rows[Shr(Shl64(container, bitsConsumed), 64 - table.log)];
      DecodingStep(whole, table, data, left, out.Length, out[..at]);
      var syms := [e.symbol];
      Store(syms);
      bitsConsumed := bitsConsumed + e.bits;
      at := at + 1;
    }

    predicate CanRefillFast()
      reads this
    {
      ptr >= bitsConsumed / 8 && ptr - bitsConsumed / 8 + 8 <= |data|
    }

    /** Rounds of five for this stream alone, while whole words can be loaded. */
    method FinishFast()
      requires Valid()
      modifies this, out
      ensures Valid()
    {
      hide Decoding, LE;
      while at + ROUND <= out.Length && ptr >= Limit()
        invariant Valid()
        decreases out.Length - at
      {
        if !CanRefillFast() {
          break;
        }
        var shift := bitsConsumed / 8;
        ptr := ptr - shift;
        bitsConsumed := bitsConsumed - 8 * shift;
        container := LE(data[ptr..ptr + 8]);
        DecodeOne();
        DecodeOne();
        DecodeOne();
        DecodeOne();
        DecodeOne();
      }
    }

    /** The reader's refill. */
    method Refill()
      requires Valid()
      modifies this`container, this`bitsConsumed, this`ptr
      ensures Valid() && (bitsConsumed <= 7 || ptr == 0) && ptr <= old(ptr)
    {
      hide Decoding, Load;
      if bitsConsumed <= 7 || ptr == 0 {
        return;
      }
      var shift := Min(bitsConsumed / 8, ptr);
      ptr := ptr - shift;
      bitsConsumed := bitsConsumed - 8 * shift;
      container := Load(data, ptr);
    }

    /** The end of the stream: five symbols a turn while the stream has the bits,
        then one by one. It succeeds exactly when the whole stream decodes. */
    method Tail() returns (ok: bool)
      requires Valid()
      modifies this, out
      ensures ok <==> whole.Some?
      ensures ok ==> out[..] == whole.value
    {
      hide Decoding, LE, Load;
      var log5 := 5 * table.log;
      while at + 5 <= out.Length
        invariant Valid()
        decreases out.Length - at
      {
        Refill();
        var inContainer := if bitsConsumed <= 64 then 64 - bitsConsumed else 0;
        if 8 * ptr + inContainer < log5 || inContainer < log5 {
          break;
        }
        DecodeOne();
        DecodeOne();
        DecodeOne();
        DecodeOne();
        DecodeOne();
      }
      Refill();
      ok := LastSymbols();
    }

    /** One by one from a container that holds every bit left, or enough for the
        symbols left. */
    method LastSymbols() returns (ok: bool)
      requires Valid() && (ptr == 0 || (bitsConsumed <= 7 && out.Length - at < 5))
      modifies this`bitsConsumed, this`at, out
      ensures ok <==> whole.Some?
      ensures ok ==> out[..] == whole.value
    {
      hide Decoding, LE, Load, Peek, At, Symbols, Shl64, Shr;
      var consumed: nat := bitsConsumed;
      while at < out.Length
        invariant at <= out.Length && consumed >= 64 - 8 * |data|
        invariant ptr > 0 ==> consumed + MAX_TABLE_LOG * (out.Length - at) <= 51
        invariant if consumed > 8 * ptr + 64 then whole == None
          else Decoding(whole, table, data, 8 * ptr + 64 - consumed, out.Length, out[..at])
      {
        if consumed >= 64 {
          if consumed == 64 {
            DecodingFails(whole, table, data, 0, out.Length, out[..at]);
          }
          return false;
        }
        var left := 8 * ptr + 64 - consumed;
        if consumed + table.log <= 64 {
          PeekInContainer(data, ptr, consumed, table.log);
        } else {
          PeekPastStart(data, consumed, table.log);
        }
        var e := table.rows[Shr(Shl64(container, consumed), 64 - table.log)];
        AtLen(data, left);
        if e.bits > left {
          DecodingFails(whole, table, data, left, out.Length, out[..at]);
        } else {
          DecodingStep(whole, table, data, left, out.Length, out[..at]);
        }
        var syms := [e.symbol];
        Store(syms);
        at := at + 1;
        consumed := consumed + e.bits;
      }
      bitsConsumed := consumed;
      assert out[..at] == out[..];
      if consumed <= 8 * ptr + 64 {
        DecodingEnds(whole, table, data, 8 * ptr + 64 - consumed, out.Length, out[..at]);
      }
      return ptr == 0 && consumed == 64;
    }
  }

  /** A stream that runs out before its symbols do decodes to nothing. */
  lemma DecodingFails(whole: Option<seq<byte>>, t: HufTable, data: seq<byte>, left: nat, n: nat, done: seq<byte>)
    requires t.Valid() && Decoding(whole, t, data, left, n, done) && |done| < n
    requires left == 0 || EntryAt(t, At(data, left)).bits > left
    ensures whole == None
  {
  }

  /** And one with bits left after its symbols, too. */
  lemma DecodingEnds(whole: Option<seq<byte>>, t: HufTable, data: seq<byte>, left: nat, n: nat, done: seq<byte>)
    requires t.Valid() && Decoding(whole, t, data, left, n, done) && |done| == n
    ensures whole == if left == 0 then Some(done) else None
  {
    AtLen(data, left);
    assert done + [] == done;
  }

  lemma PairStep(whole: Option<seq<byte>>, t: HufTable, data: seq<byte>, left: nat, n: nat, done: seq<byte>, row: PairRow)
    requires t.Valid() && PrefixConsistent(t) && left >= 22 && |done| + 2 <= n
    requires row == PairOf(t, Peek(At(data, left), PAIR_TABLE_LOG))
    requires Decoding(whole, t, data, left, n, done)
    ensures row.bits <= left && 1 <= row.count <= 2
    ensures Decoding(whole, t, data, left - row.bits, n,
                     done + (if row.count == 1 then [row.first] else [row.first, row.second]))
  {
    hide Peek, PairOf, PrefixConsistent, Decoding, EntryAt, At;
    AtLen(data, left);
    PairReads(t, At(data, left));
    var e := EntryAt(t, At(data, left));
    DecodingStep(whole, t, data, left, n, done);
    if row.count == 2 {
      RestAt(data, left, e.bits);
      AtLen(data, left - e.bits);
      DecodingStep(whole, t, data, left - e.bits, n, done + [row.first]);
      assert done + [row.first] + [row.second] == done + [row.first, row.second];
    }
  }

  lemma Opened(t: HufTable, src: seq<byte>, n: nat)
    requires t.Valid() && Marked(src)
    ensures Decoding(StreamSymbols(t, src, n), t, src, Unmark(src).len, n, [])
  {
    AfterNothing(Symbols(t, Unmark(src), n));
  }

  lemma AfterNothing(rest: Option<seq<byte>>)
    ensures After([], rest) == rest
  {
    if rest.Some? {
      assert [] + rest.value == rest.value;
    }
  }
}
