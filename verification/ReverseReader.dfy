/** The reverse bit reader, which counts consumed bits of a 64-bit container,
    proved against the stack of bits. Blocks with one sequence, and the tails
    of Huffman streams, are read with it. */
module ReverseReader {
  import opened Arith
  import opened Bits
  import opened Wrappers
  import opened SeqReader
  import opened SeqStream

  /** Up to eight bytes from `ptr` on. */
  function Load(data: seq<byte>, ptr: nat): nat
    requires ptr <= |data|
  {
    LE(data[ptr..Min(ptr + 8, |data|)])
  }

  /** `((container << consumed) >> (64 - n))`: a field by a double shift. */
  function DoubleShift(container: nat, consumed: nat, n: nat): nat
    requires n <= 64
  {
    Shr(Shl64(container, consumed), 64 - n)
  }

  /** It reads `n` bits below the consumed ones. */
  lemma DoubleShiftReads(container: nat, consumed: nat, n: nat)
    requires consumed + n <= 64
    ensures DoubleShift(container, consumed, n) == Low(Shr(container, 64 - consumed - n), n)
  {
    hide Shl, Shr, Low, Pow2;
    var top := 64 - consumed;
    SplitAt(container, top);
    ShlAdd(Low(container, top), Shl(Shr(container, top), top), consumed);
    ShlShl(Shr(container, top), top, consumed);
    LowAdd(Shl(Low(container, top), consumed), Shr(container, top), 64, 64);
    ShlBelow(Low(container, top), top, consumed);
    LowOfSmall(Shl(Low(container, top), consumed), 64);
    var rest: nat := top - n;
    ShrShr(Shl(Low(container, top), consumed), consumed, rest);
    ShrOfShl(Low(container, top), consumed, consumed);
    ShlZero(Low(container, top));
    ShrLow(container, rest, n);
  }

  lemma ShlZero(x: nat)
    ensures Shl(x, 0) == x
  {
  }

  /** The container holds the stream's bits from `ptr` on. */
  lemma LoadField(data: seq<byte>, ptr: nat, start: nat, n: nat)
    requires ptr <= |data| && start + n <= 8 * (Min(ptr + 8, |data|) - ptr)
    ensures Low(Shr(Load(data, ptr), start), n) == Low(Shr(LE(data), 8 * ptr + start), n)
  {
    hide Shr, Low, LE, Pow2;
    var e := Min(ptr + 8, |data|);
    LESlice(data, ptr, e);
    ShrLow(Shr(LE(data), 8 * ptr), start, 8 * (e - ptr) - start);
    ShrShr(LE(data), 8 * ptr, start);
    LowLow(Shr(LE(data), 8 * ptr + start), n, 8 * (e - ptr) - start);
  }

  /** A field that the container has is the stream's. */
  lemma FieldAt(data: seq<byte>, ptr: nat, consumed: nat, n: nat)
    requires ptr < |data| && (ptr == 0 || ptr + 8 <= |data|) && 64 - 8 * |data| <= consumed && consumed + n <= 64
    ensures 8 * ptr + 64 - consumed >= n
    ensures Pop(At(data, 8 * ptr + 64 - consumed), n)
      == Some((DoubleShift(Load(data, ptr), consumed, n), At(data, 8 * ptr + 64 - consumed - n)))
  {
    var left := 8 * ptr + 64 - consumed;
    hide Shl, Shr, Low, LE, Pow2, Load, At, Top, Rest, DoubleShift;
    AtLen(data, left);
    RestAt(data, left, n);
    DoubleShiftReads(Load(data, ptr), consumed, n);
    if n > 0 {
      LoadField(data, ptr, 64 - consumed - n, n);
    } else {
      LowZero(Shr(Load(data, ptr), 64 - consumed));
      LowZero(Shr(LE(data), left));
    }
  }

  /** A read without a check: `((container << (consumed & 63)) >> 1) >> (63 - n)`,
      defined past the container's end too. */
  function Branchless(container: nat, consumed: nat, n: nat): (value: nat)
    requires n <= 32
    ensures value < Pow2(n)
  {
    BranchlessShift(container, consumed, n);
    Shr(Shr(Shl64(container, Low(consumed, 6)), 1), 63 - n)
  }

  /** Where a refill leaves a reader with `left` unread bits. */
  function RefillPtr(left: nat): nat {
    if left <= 64 then 0 else (left - 57) / 8
  }

  class ReverseBitReader {
    const data: seq<byte>
    var container: nat
    var bitsConsumed: nat
    var ptr: nat

    ghost predicate Valid()
      reads this
    {
      && ptr < |data| && (ptr == 0 || ptr + 8 <= |data|)
      && container == Load(data, ptr)
      && bitsConsumed >= 64 - 8 * |data|
    }

    /** Unread bits; below zero after reads past the stream's start. */
    ghost function Left(): int
      reads this
    {
      8 * ptr + 64 - bitsConsumed
    }

    /** Opens a stream with a marker. */
    constructor (src: seq<byte>)
      requires Marked(src)
      ensures Valid() && data == src && Left() == Unmark(src).len && bitsConsumed <= 64
    {
      ByteHighBit(src[|src| - 1]);
      var leadingZeros := 7 - HighBit(src[|src| - 1]);
      data := src;
      ptr := if |src| >= 8 then |src| - 8 else 0;
      container := if |src| >= 8 then LE(src[|src| - 8..]) else LE(src);
      bitsConsumed := if |src| >= 8 then leadingZeros + 1 else 64 - 8 * |src| + leadingZeros + 1;
      new;
      assert src[..|src|] == src;
    }

    /** Moves consumed whole bytes out, as far as the stream goes. */
    method Refill()
      requires Valid()
      modifies this
      ensures Valid() && Left() == old(Left())
      ensures bitsConsumed <= 7 || ptr == 0
      ensures Left() >= 0 ==> ptr == RefillPtr(Left())
    {
      if bitsConsumed <= 7 || ptr == 0 {
        return;
      }
      var shift := Min(bitsConsumed / 8, ptr);
      ptr := ptr - shift;
      bitsConsumed := bitsConsumed - 8 * shift;
      container := Load(data, ptr);
    }

    /** Reads `n` bits or fails: exactly the stack's pop. */
    method ReadBits(n: nat) returns (r: Option<nat>)
      requires Valid() && n <= 32 && Left() >= 0
      modifies this
      ensures Valid()
      ensures match Pop(At(data, old(Left())), n)
        case None => r == None
        case Some((value, rest)) => r == Some(value) && Left() >= 0 && rest == At(data, Left())
    {
      hide Shl, Shr, Low, LE, Pow2, At;
      AtLen(data, Left());
      if n == 0 {
        PopNothing(data, Left());
        return Some(0);
      }
      Refill();
      var avail := if bitsConsumed <= 64 then 64 - bitsConsumed else 0;
      if n > avail {
        return None;
      }
      FieldAt(data, ptr, bitsConsumed, n);
      r := Some(DoubleShift(container, bitsConsumed, n));
      bitsConsumed := bitsConsumed + n;
    }

    /** Reads `n` bits without a check. The value is the stack's while the
        container has its bits; past them only the count is meaningful. */
    method ReadBitsBranchless(n: nat) returns (value: nat)
      requires Valid() && n <= 32
      modifies this`bitsConsumed
      ensures Valid() && bitsConsumed == old(bitsConsumed) + n
      ensures value == Branchless(container, old(bitsConsumed), n)
      ensures bitsConsumed <= 64 ==> Pop(At(data, old(Left())), n) == Some((value, At(data, Left())))
    {
      hide Shl, Shr, Low, Pow2, LE, At, Pop, Load;
      if bitsConsumed + n <= 64 {
        BranchlessField(data, ptr, bitsConsumed, n);
      }
      value := Branchless(container, bitsConsumed, n);
      bitsConsumed := bitsConsumed + n;
    }

    /** Whether every bit was read, and no more. */
    function IsExhausted(): (r: bool)
      reads this
      ensures r <==> ptr == 0 && Left() == 0
    {
      ptr == 0 && bitsConsumed == 64
    }
  }

  lemma AtLen(data: seq<byte>, left: nat)
    ensures At(data, left).len == left
  {
  }

  lemma PopNothing(data: seq<byte>, left: nat)
    ensures Pop(At(data, left), 0) == Some((0, At(data, left)))
  {
    RestAt(data, left, 0);
    LowZero(Shr(LE(data), left));
  }

  lemma LowZero(x: nat)
    ensures Low(x, 0) == 0
  {
  }

  /** A right shift in two parts, which can drop a whole register. */
  lemma SplitShift(x: nat, width: nat, n: nat)
    requires x < Pow2(width) && n < width
    ensures Shr(Shr(x, 1), width - 1 - n) == Shr(x, width - n) < Pow2(n)
  {
    hide Shr, Pow2;
    ShrShr(x, 1, width - 1 - n);
    ShrBelow(x, n, width - n);
  }

  /** The shift by the low six bits of the count, and the split right shift, which
      reads no bit for a count of zero. */
  lemma BranchlessShift(container: nat, consumed: nat, n: nat)
    requires n <= 32
    ensures Low(consumed, 6) < 64
    ensures var value := Shr(Shr(Shl64(container, Low(consumed, 6)), 1), 63 - n);
      && value < Pow2(n)
      && (consumed + n <= 64 ==> value == DoubleShift(container, consumed, n))
  {
    hide Shl, Shr, Low, Pow2;
    Pow2Values();
    var c := Low(consumed, 6);
    SplitShift(Shl64(container, c), 64, n);
    if consumed < 64 {
      LowOfSmall(consumed, 6);
    } else if consumed + n <= 64 {
      SplitShift(Shl64(container, consumed), 64, n);
      Pow2Values();
    }
  }

  /** An unchecked read of a field that the container has is the stream's. */
  lemma BranchlessField(data: seq<byte>, ptr: nat, consumed: nat, n: nat)
    requires ptr < |data| && (ptr == 0 || ptr + 8 <= |data|) && 64 - 8 * |data| <= consumed && consumed + n <= 64 && n <= 32
    ensures 8 * ptr + 64 - consumed >= n
    ensures Pop(At(data, 8 * ptr + 64 - consumed), n)
      == Some((Branchless(Load(data, ptr), consumed, n), At(data, 8 * ptr + 64 - consumed - n)))
  {
    hide Shl, Shr, Low, Pow2, LE, At, Pop, Load;
    FieldAt(data, ptr, consumed, n);
    BranchlessShift(Load(data, ptr), consumed, n);
  }
}
