/** The encoder's sequence bitstream: a 64-bit container flushed by whole
    bytes, proved to write exactly the stack's stream. */
module SeqWriter {
  import opened Arith
  import opened Bits
  import opened Wrappers
  import opened FseTable
  import opened FseEncodeTable
  import opened SeqCodes
  import opened SeqStream

  const WORD: nat := 64

  /** The output buffer, the write position and the container that the sequence
      encoders keep in local variables. */
  class BitSink {
    var buf: seq<byte>
    var pos: nat
    var bits: nat
    var bitsUsed: nat

    /** Room for one more bit: the container never holds 64. */
    ghost predicate Valid()
      reads this
    {
      pos <= |buf| && bitsUsed < WORD && bits < Pow2(bitsUsed)
    }

    /** Everything written so far, flushed or not. */
    ghost function Written(): (b: BitStack)
      requires Valid()
      reads this
      ensures b.Valid() && b.len == 8 * pos + bitsUsed
    {
      LEBound(buf[..pos]);
      Push(BitStack(LE(buf[..pos]), 8 * pos), bits, bitsUsed)
    }

    constructor (scratch: seq<byte>)
      ensures Valid() && Written() == EMPTY && bitsUsed == 0
    {
      buf, pos, bits, bitsUsed := scratch, 0, 0, 0;
      new;
      LowOfSmall(0, 0);
      ShlOne(0);
      assert buf[..0] == [];
    }

    /** Appends the `n` bits of `val`. */
    method AddBits(val: nat, n: nat)
      requires Valid() && bitsUsed + n < WORD && val < Pow2(n)
      modifies this`bits, this`bitsUsed
      ensures Valid() && bitsUsed == old(bitsUsed) + n
      ensures Written() == Push(old(Written()), val, n)
    {
      hide Shl, Shr, Low, Pow2, BitOr, LE, Push;
      ContainerAdd(bits, bitsUsed, val, n);
      LEBound(buf[..pos]);
      PushPush(BitStack(LE(buf[..pos]), 8 * pos), bits, bitsUsed, val, n);
      bits := BitOr(bits, Low(Shl(val, bitsUsed), WORD));
      bitsUsed := bitsUsed + n;
    }

    /** Stores the container and drops its whole bytes. */
    method Flush()
      requires Valid()
      modifies this
      ensures Valid() && bitsUsed < 8 && bitsUsed <= old(bitsUsed)
      ensures Written() == old(Written())
    {
      hide Shl, Shr, Low, Pow2, LE, Push, ToLE;
      ghost var before := buf[..pos];
      var bytes := ToLE(bits, 8);
      buf := buf[..pos] + bytes + (if pos + 8 <= |buf| then buf[pos + 8..] else []);
      var nb := bitsUsed / 8;
      FlushBytes(before, bits, bitsUsed, nb);
      assert buf[..pos + nb] == before + bytes[..nb];
      assert old(Written()) == Push(BitStack(LE(before), 8 * |before|), bits, bitsUsed);
      pos := pos + nb;
      bits := Shr(bits, 8 * nb);
      bitsUsed := bitsUsed - 8 * nb;
      assert Written() == Push(BitStack(LE(buf[..pos]), 8 * pos), bits, bitsUsed);
    }

    /** The extra bits of a sequence, after at most 33 pending bits: short ones
        fit at once, longer ones flush first, the longest go in two parts. */
    method AddExtraBits(p: PackedSeq)
      requires Valid() && bitsUsed <= 33 && p.extraNbits < WORD && p.extraBits < Pow2(p.extraNbits)
      modifies this
      ensures Valid() && Written() == Push(old(Written()), p.extraBits, p.extraNbits)
    {
      if p.extraNbits <= 30 {
        AddBits(p.extraBits, p.extraNbits);
      } else {
        Flush();
        if p.extraNbits <= 56 {
          AddBits(p.extraBits, p.extraNbits);
        } else {
          TwoParts(Written(), p.extraBits, p.extraNbits);
          AddBits(Low(p.extraBits, 32), 32);
          Flush();
          AddBits(Shr(p.extraBits, 32), p.extraNbits - 32);
        }
      }
    }

    /** Writes the marker bit and the bytes left, and returns the stream. */
    method Close() returns (bytes: seq<byte>)
      requires Valid() && bitsUsed + 1 < WORD
      modifies this
      ensures Marked(bytes) && Unmark(bytes) == old(Written())
    {
      hide Shl, Shr, Low, Pow2, LE, BitOr, ToLE;
      Pow2Values();
      ghost var b := Written();
      AddBits(1, 1);
      Flush();
      bytes := Drain(b);
    }

    /** The same after a flush, when the marker still fits the container. */
    method CloseFlushed() returns (bytes: seq<byte>)
      requires Valid() && bitsUsed < 8
      modifies this
      ensures Marked(bytes) && Unmark(bytes) == old(Written())
    {
      hide Shl, Shr, Low, Pow2, LE, BitOr, ToLE;
      Pow2Values();
      ghost var b := Written();
      AddBits(1, 1);
      bytes := Drain(b);
    }

    /** Writes what is left in the container, byte by byte. */
    method Drain(ghost b: BitStack) returns (bytes: seq<byte>)
      requires Valid() && bitsUsed <= 8 && b.Valid() && b.len + 1 == 8 * pos + bitsUsed
      requires Written() == BitStack(b.v + Shl(1, b.len), b.len + 1)
      modifies this
      ensures Marked(bytes) && Unmark(bytes) == b
    {
      hide Shl, Shr, Low, Pow2, LE, BitOr, ToLE;
      Pow2Values();
      ghost var marked := Written();
      while bitsUsed > 0
        invariant Valid() && bitsUsed <= 8
        invariant LE(buf[..pos]) + Shl(bits, 8 * pos) == marked.v
        invariant if bitsUsed > 0 then 8 * pos + bitsUsed == b.len + 1 else pos == b.len / 8 + 1
      {
        LastByte(buf[..pos], bits, bitsUsed);
        buf := buf[..pos] + [bits % 256] + (if pos + 1 <= |buf| then buf[pos + 1..] else []);
        bits := bits / 256;
        bitsUsed := SaturatingSub(bitsUsed, 8);
        pos := pos + 1;
      }
      bytes := buf[..pos];
      MarkedStream(b, marked, bytes, bits);
    }
  }

  /** A container of at most eight bits, written as a byte. */
  lemma LastByte(before: seq<byte>, bits: nat, used: nat)
    requires bits < Pow2(used) && used <= 8
    ensures bits % 256 == bits && bits / 256 == 0
    ensures LE(before + [bits]) + Shl(0, 8 * |before| + 8) == LE(before) + Shl(bits, 8 * |before|)
  {
    hide Pow2, Shl;
    Pow2Mono(used, 8);
    Pow2Values();
    LEConcat(before, [bits]);
    ShlOne(8);
    ShlOne(8 * |before| + 8);
    assert LE([bits]) == bits;
  }

  lemma MarkedStream(b: BitStack, marked: BitStack, bytes: seq<byte>, bits: nat)
    requires b.Valid() && marked == BitStack(b.v + Shl(1, b.len), b.len + 1)
    requires bits == 0 && LE(bytes) + Shl(bits, 8 * |bytes|) == marked.v && |bytes| == b.len / 8 + 1
    ensures Marked(bytes) && Unmark(bytes) == b
  {
    ShlOne(8 * |bytes|);
    ShlOne(b.len);
    UnmarkUnique(bytes, b);
  }

  function SaturatingSub(a: nat, b: nat): nat {
    if a >= b then a - b else 0
  }

  /** OR into the free bits of a container that does not fill up. */
  lemma ContainerAdd(bits: nat, used: nat, val: nat, n: nat)
    requires bits < Pow2(used) && val < Pow2(n) && used + n < WORD
    ensures BitOr(bits, Low(Shl(val, used), WORD)) == bits + Shl(val, used) < Pow2(used + n)
  {
    ShlBelow(val, n, used);
    Pow2Mono(n + used, WORD);
    LowOfSmall(Shl(val, used), WORD);
    OrDisjoint(bits, val, used);
  }

  lemma ContainerBytes(bits: nat, used: nat, nb: nat)
    requires bits < Pow2(used) && used < WORD && nb <= 8
    ensures LE(ToLE(bits, 8)[..nb]) == Low(bits, 8 * nb)
  {
    hide Shl, Shr, Low, Pow2, LE, ToLE;
    var bytes := ToLE(bits, 8);
    ShrZero(LE(bytes));
    LEToLE(bits, 8);
    Pow2Mono(used, WORD);
    LowOfSmall(bits, WORD);
    LESlice(bytes, 0, nb);
    assert bytes[0..nb] == bytes[..nb];
  }

  /** The whole bytes of a container, moved to the buffer. */
  lemma FlushBytes(before: seq<byte>, bits: nat, used: nat, nb: nat)
    requires bits < Pow2(used) && used < WORD && 8 * nb <= used
    ensures Shr(bits, 8 * nb) < Pow2(used - 8 * nb)
    ensures LE(before) < Pow2(8 * |before|)
    ensures var flushed := before + ToLE(bits, 8)[..nb];
      LE(flushed) < Pow2(8 * |flushed|)
      && Push(BitStack(LE(flushed), 8 * |flushed|), Shr(bits, 8 * nb), used - 8 * nb)
        == Push(BitStack(LE(before), 8 * |before|), bits, used)
  {
    hide Shl, Shr, Low, Pow2, LE, ToLE;
    var bytes := ToLE(bits, 8)[..nb];
    var b := BitStack(LE(before), 8 * |before|);
    LEBound(before);
    LEBound(before + bytes);
    LEConcat(before, bytes);
    ContainerBytes(bits, used, nb);
    ShrBelow(bits, used - 8 * nb, 8 * nb);
    SplitAt(bits, 8 * nb);
    PushPush(b, Low(bits, 8 * nb), 8 * nb, Shr(bits, 8 * nb), used - 8 * nb);
  }

  /** A long field is its low 32 bits and the rest. */
  lemma TwoParts(b: BitStack, x: nat, n: nat)
    requires b.Valid() && x < Pow2(n) && n >= 32
    ensures Shr(x, 32) < Pow2(n - 32)
    ensures Push(Push(b, Low(x, 32), 32), Shr(x, 32), n - 32) == Push(b, x, n)
  {
    hide Shl, Shr, Low, Pow2, Push;
    ShrBelow(x, n - 32, 32);
    SplitAt(x, 32);
    PushPush(b, Low(x, 32), 32, Shr(x, 32), n - 32);
  }

  /** Every packed sequence's extra bits fit the container. */
  lemma ExtraFits(p: PackedSeq, f: Fields)
    requires FieldsLinked(f) && Packed(p, f)
    ensures p.extraNbits < WORD && p.extraBits < Pow2(p.extraNbits)
  {
    ExtraBounds(LiteralLength, p.llC);
    ExtraBounds(MatchLength, p.mlC);
    ExtraBounds(OffsetCode, p.ofC);
  }

  /** The sequence bitstream of any three coders, with each field in FSE or RLE
      mode. Writing it never fills the container, and its bytes are the marked
      stream. */
  method EncodeBitstream(p: seq<PackedSeq>, c: Coders, scratch: seq<byte>, ghost f: Fields)
    returns (bytes: seq<byte>)
    requires FieldsLinked(f) && c == CodersOf(f) && AllPacked(p, f)
    ensures Marked(bytes) && Unmark(bytes) == Stream(p, f)
  {
    hide FieldsLinked, Packed, EncReady, Marked, Unmark, Push, EncodeLast, EncodeNext, CoderLog, Pow2, Shl, LE, Low, Shr;
    var sink := new BitSink(scratch);
    var k := |p| - 1;
    var llState: nat, ofState: nat, mlState: nat := EncodeFirst(sink, p[k], c, f);
    while k > 0
      invariant 0 <= k < |p| && fresh(sink) && sink.Valid()
      invariant EncodeFrom(p, k, f) == EncState(sink.Written(), llState, ofState, mlState)
    {
      k := k - 1;
      sink.Flush();
      llState, ofState, mlState := EncodeSequence(sink, p[k], c, llState, ofState, mlState, f, EncodeFrom(p, k + 1, f));
    }
    FinalStates(EncodeFrom(p, 0, f), f);
    FinishStates(sink, llState - Pow2(CoderLog(c.ll)), CoderLog(c.ll), ofState - Pow2(CoderLog(c.of)), CoderLog(c.of),
                 mlState - Pow2(CoderLog(c.ml)), CoderLog(c.ml));
    bytes := sink.Close();
  }

  /** The last sequence opens the stream. */
  method EncodeFirst(sink: BitSink, last: PackedSeq, c: Coders, ghost f: Fields)
    returns (llState: nat, ofState: nat, mlState: nat)
    requires FieldsLinked(f) && c == CodersOf(f) && Packed(last, f)
    requires sink.Valid() && sink.Written() == EMPTY && sink.bitsUsed == 0
    modifies sink
    ensures sink.Valid()
    ensures EncodeLast(last, f) == EncState(sink.Written(), llState, ofState, mlState)
  {
    InitReady(f.ll, last.llC);
    InitReady(f.of, last.ofC);
    InitReady(f.ml, last.mlC);
    ExtraFits(last, f);
    llState := InitOf(c.ll, last.llC);
    ofState := InitOf(c.of, last.ofC);
    mlState := InitOf(c.ml, last.mlC);
    sink.AddBits(last.extraBits, last.extraNbits);
  }

  /** The final states close it, at most 26 bits. */
  method FinishStates(sink: BitSink, ll: nat, llLog: nat, of: nat, ofLog: nat, ml: nat, mlLog: nat)
    requires ll < Pow2(llLog) && of < Pow2(ofLog) && ml < Pow2(mlLog) && llLog + ofLog + mlLog <= 26
    requires sink.Valid()
    modifies sink
    ensures sink.Valid() && sink.bitsUsed + 1 < WORD
    ensures sink.Written() == Push(Push(Push(old(sink.Written()), ml, mlLog), of, ofLog), ll, llLog)
  {
    hide Push, Pow2;
    sink.Flush();
    sink.AddBits(ml, mlLog);
    sink.AddBits(of, ofLog);
    sink.AddBits(ll, llLog);
  }

  lemma FinalStates(e: EncState, f: Fields)
    requires FieldsLinked(f) && EncReady(e, f)
    ensures CoderLog(f.ll.coder) == f.ll.log <= 9
    ensures CoderLog(f.of.coder) == f.of.log <= 8
    ensures CoderLog(f.ml.coder) == f.ml.log <= 9
    ensures 0 <= e.ll - Pow2(f.ll.log) < Pow2(f.ll.log)
    ensures 0 <= e.of - Pow2(f.of.log) < Pow2(f.of.log)
    ensures 0 <= e.ml - Pow2(f.ml.log) < Pow2(f.ml.log)
  {
  }

  /** One earlier sequence: three transitions, at most 26 bits, and the extra bits. */
  method EncodeSequence(sink: BitSink, p: PackedSeq, c: Coders, llState: nat, ofState: nat, mlState: nat,
                        ghost f: Fields, ghost e: EncState)
    returns (llNext: nat, ofNext: nat, mlNext: nat)
    requires FieldsLinked(f) && c == CodersOf(f) && Packed(p, f) && EncReady(e, f)
    requires sink.Valid() && sink.bitsUsed < 8 && e == EncState(sink.Written(), llState, ofState, mlState)
    modifies sink
    ensures sink.Valid()
    ensures EncodeNext(e, p, f) == EncState(sink.Written(), llNext, ofNext, mlNext)
  {
    StepReady(f.of, p.ofC, ofState);
    StepReady(f.ml, p.mlC, mlState);
    StepReady(f.ll, p.llC, llState);
    ExtraFits(p, f);
    var t := Transit1(c.of, p.ofC, ofState);
    sink.AddBits(t.out, t.bits);
    ofNext := t.next;
    t := Transit1(c.ml, p.mlC, mlState);
    sink.AddBits(t.out, t.bits);
    mlNext := t.next;
    t := Transit1(c.ll, p.llC, llState);
    sink.AddBits(t.out, t.bits);
    llNext := t.next;
    sink.AddExtraBits(p);
  }
}
