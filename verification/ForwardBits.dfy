/** The forward bit writer and reader, which tables and raw fields use: the
    writer's bytes and the reader's windows against the bits themselves. */
module ForwardBits {
  import opened Arith
  import opened Bits
  import opened Wrappers
  import opened SeqWriter

  // ----- the writer -----

  /** Most bits one write takes. */
  const MAX_WRITE: nat := 25

  class BitWriter {
    var buf: seq<byte>
    var pos: nat
    var bits: nat
    var bitsUsed: nat

    ghost predicate Valid()
      reads this
    {
      pos <= |buf| && bitsUsed < 32 && bits < Pow2(bitsUsed)
    }

    ghost function Written(): (b: BitStack)
      requires Valid()
      reads this
      ensures b.Valid() && b.len == 8 * pos + bitsUsed
    {
      LEBound(buf[..pos]);
      Push(BitStack(LE(buf[..pos]), 8 * pos), bits, bitsUsed)
    }

    constructor ()
      ensures Valid() && Written() == EMPTY
    {
      buf, pos, bits, bitsUsed := [], 0, 0, 0;
      new;
      LowOfSmall(0, 0);
      ShlOne(0);
    }

    /** Appends the `n` bits of `value`; four whole bytes or more go to the buffer. */
    method WriteBits(value: nat, n: nat)
      requires Valid() && n <= MAX_WRITE && value < Pow2(n)
      modifies this
      ensures Valid() && Written() == Push(old(Written()), value, n)
    {
      hide Shl, Shr, Low, Pow2, BitOr, LE, Push, ToLE;
      ghost var before := buf[..pos];
      if n == 0 {
        PushNothing(Written(), value);
        return;
      }
      ContainerAdd(bits, bitsUsed, value, n);
      LEBound(before);
      PushPush(BitStack(LE(before), 8 * pos), bits, bitsUsed, value, n);
      bits := BitOr(bits, Low(Shl(value, bitsUsed), WORD));
      bitsUsed := bitsUsed + n;
      if bitsUsed >= 32 {
        var bytes := ToLE(bits, 8);
        buf := buf[..pos] + bytes;
        var nb := bitsUsed / 8;
        FlushBytes(before, bits, bitsUsed, nb);
        assert buf[..pos + nb] == before + bytes[..nb];
        pos := pos + nb;
        bits := Shr(bits, 8 * nb);
        bitsUsed := bitsUsed - 8 * nb;
      }
    }

    /** The bytes written, the last one filled up with zeros. */
    method IntoBytes() returns (bytes: seq<byte>)
      requires Valid()
      modifies this
      ensures LE(bytes) == old(Written()).v && |bytes| == (old(Written()).len + 7) / 8
    {
      hide Shl, Shr, Low, Pow2, LE;
      Pow2Values();
      ghost var b := Written();
      buf := buf[..pos];
      while bitsUsed > 0
        invariant bitsUsed < 32 && bits < Pow2(bitsUsed)
        invariant LE(buf) + Shl(bits, 8 * |buf|) == b.v
        invariant (8 * |buf| + bitsUsed + 7) / 8 == (b.len + 7) / 8
        decreases bitsUsed
      {
        OneByte(buf, bits, bitsUsed);
        buf := buf + [bits % 256];
        bits := bits / 256;
        bitsUsed := SaturatingSub(bitsUsed, 8);
      }
      pos := |buf|;
      bytes := buf;
      ShlOne(8 * |bytes|);
    }

    /** Appends the marker of a reverse stream and returns its bytes. */
    method CloseReverseStream() returns (bytes: seq<byte>)
      requires Valid()
      modifies this
      ensures Marked(bytes) && Unmark(bytes) == old(Written())
    {
      hide Shl, Shr, Low, LE;
      ghost var b := Written();
      Pow2Values();
      WriteBits(1, 1);
      ghost var marked := Written();
      bytes := IntoBytes();
      ShlOne(8 * |bytes|);
      MarkedStream(b, marked, bytes, 0);
    }
  }

  lemma PushNothing(b: BitStack, value: nat)
    requires b.Valid() && value < Pow2(0)
    ensures Push(b, value, 0) == b
  {
    ShlOne(b.len);
  }

  /** The lowest byte of a container, moved to the buffer. */
  lemma OneByte(before: seq<byte>, bits: nat, used: nat)
    requires bits < Pow2(used) && 0 < used < 32
    ensures bits / 256 < Pow2(SaturatingSub(used, 8))
    ensures LE(before + [bits % 256]) + Shl(bits / 256, 8 * |before| + 8) == LE(before) + Shl(bits, 8 * |before|)
  {
    hide Shl, Shr, Low, Pow2, LE;
    ShrByte(bits);
    if used >= 8 {
      ShrBelow(bits, used - 8, 8);
    } else {
      Pow2Mono(used, 8);
      LowOfSmall(bits, 8);
      Pow2Values();
    }
    LEConcat(before, [bits % 256]);
    LEOne(bits % 256);
    SplitAt(bits, 8);
    ShlAdd(bits % 256, Shl(bits / 256, 8), 8 * |before|);
    ShlShl(bits / 256, 8, 8 * |before|);
  }

  lemma LEOne(x: byte)
    ensures LE([x]) == x
  {
    ShlOne(8);
  }

  // ----- the reader -----

  /** Valid bits of a window. */
  const WINDOW_BITS: nat := 57

  /** Eight bytes from `at` on; bytes past the end read as zero. */
  function Load64(data: seq<byte>, at: nat): nat {
    if at + 8 <= |data| then LE(data[at..at + 8])
    else if at <= |data| then LE(data[at..])
    else 0
  }

  /** The bits from position `bit` on. */
  function WindowAt(data: seq<byte>, bit: nat): nat {
    Shr(Load64(data, bit / 8), bit % 8)
  }

  lemma TailValue(data: seq<byte>, at: nat)
    requires at <= |data|
    ensures Shr(LE(data), 8 * at) == LE(data[at..])
  {
    hide Shl, Shr, Low, Pow2, LE;
    assert data == data[..at] + data[at..];
    LEConcat(data[..at], data[at..]);
    LEBound(data[..at]);
    SplitUnique(LE(data[..at]), LE(data[at..]), 8 * at);
  }

  lemma PastEnd(data: seq<byte>, at: nat)
    requires at >= |data|
    ensures Shr(LE(data), 8 * at) == 0
  {
    LEBound(data);
    Pow2Mono(8 * |data|, 8 * at);
    LowOfSmall(LE(data), 8 * at);
  }

  /** A window shows the data's bits. */
  lemma WindowReads(data: seq<byte>, bit: nat, n: nat)
    requires n <= WINDOW_BITS
    ensures Low(WindowAt(data, bit), n) == Low(Shr(LE(data), bit), n)
  {
    hide Shl, Shr, Low, Pow2, LE;
    var at, k := bit / 8, bit % 8;
    ShrShr(LE(data), 8 * at, k);
    if at + 8 <= |data| {
      var v := Shr(LE(data), 8 * at);
      LESlice(data, at, at + 8);
      ShrLow(v, k, 64 - k);
      LowLow(Shr(v, k), n, 64 - k);
    } else if at <= |data| {
      TailValue(data, at);
    } else {
      PastEnd(data, at);
    }
  }

  class BitReader {
    const data: seq<byte>
    var pos: nat
    var bitPos: nat

    ghost predicate Valid()
      reads this
    {
      bitPos < 8 && 8 * pos + bitPos <= 8 * |data|
    }

    constructor (src: seq<byte>)
      ensures Valid() && data == src && BitsConsumed() == 0
    {
      data, pos, bitPos := src, 0, 0;
    }

    function BitsConsumed(): nat
      reads this
    {
      8 * pos + bitPos
    }

    function BytesConsumed(): nat
      reads this
    {
      if bitPos == 0 then pos else pos + 1
    }

    /** Reads `n` bits, or fails when fewer are left. */
    method ReadBits(n: nat) returns (r: Option<nat>)
      requires Valid() && n <= 25
      modifies this
      ensures Valid()
      ensures r.Some? <==> old(BitsConsumed()) + n <= 8 * |data|
      ensures r.Some? ==> r.value == Low(Shr(LE(data), old(BitsConsumed())), n) && BitsConsumed() == old(BitsConsumed()) + n
      ensures r.None? ==> BitsConsumed() == old(BitsConsumed())
    {
      hide Shl, Shr, Low, Pow2, LE, Load64, BitAnd;
      if n == 0 {
        LowNone(Shr(LE(data), BitsConsumed()));
        return Some(0);
      }
      if 8 * |data| - BitsConsumed() < n {
        return None;
      }
      var word := Load64(data, pos);
      WindowReads(data, BitsConsumed(), n);
      AndMask(Shr(word, bitPos), n);
      var result := BitAnd(Shr(word, bitPos), Pow2(n) - 1);
      var total := bitPos + n;
      pos := pos + total / 8;
      bitPos := total % 8;
      return Some(result);
    }

    method Seek(bit: nat)
      requires bit <= 8 * |data|
      modifies this
      ensures Valid() && BitsConsumed() == bit
    {
      pos, bitPos := bit / 8, bit % 8;
    }

    method AlignToByte()
      requires Valid()
      modifies this
      ensures Valid() && BitsConsumed() == 8 * old(BytesConsumed())
    {
      if bitPos != 0 {
        bitPos := 0;
        pos := pos + 1;
      }
    }
  }

  lemma LowNone(x: nat)
    ensures Low(x, 0) == 0
  {
  }
}
