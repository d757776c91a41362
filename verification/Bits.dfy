/** The backward bitstream of section 4.1 of RFC 8878, seen as a stack: the
    encoder pushes fields, the decoder pops them from the other end of the
    bytes. The 64-bit containers of the writer and the readers are proved
    against these operations. */
module Bits {
  import opened Arith

  /** `len` bits whose value, first written bit lowest, is `v`. */
  datatype BitStack = BitStack(v: nat, len: nat) {
    ghost predicate Valid() {
      v < Pow2(len)
    }
  }

  const EMPTY := BitStack(0, 0)

  /** Appends the `n` bits of `val`. */
  function Push(b: BitStack, val: nat, n: nat): (r: BitStack)
    requires b.Valid() && val < Pow2(n)
    ensures r.Valid() && r.len == b.len + n
  {
    ShlBelow(val, n, b.len);
    BitStack(b.v + Shl(val, b.len), b.len + n)
  }

  /** The last `n` bits. */
  function Top(b: BitStack, n: nat): (val: nat)
    requires b.Valid() && n <= b.len
    ensures val < Pow2(n)
  {
    ShrBelow(b.v, n, b.len - n);
    Shr(b.v, b.len - n)
  }

  /** The stack without its last `n` bits. */
  function Rest(b: BitStack, n: nat): (r: BitStack)
    requires b.Valid() && n <= b.len
    ensures r.Valid() && r.len == b.len - n
  {
    BitStack(Low(b.v, b.len - n), b.len - n)
  }

  lemma PopPush(b: BitStack, val: nat, n: nat)
    requires b.Valid() && val < Pow2(n)
    ensures Top(Push(b, val, n), n) == val && Rest(Push(b, val, n), n) == b
  {
    hide Low, Shr, Shl, Pow2;
    var r := Push(b, val, n);
    assert r == BitStack(b.v + Shl(val, b.len), b.len + n);
    SplitUnique(b.v, val, b.len);
    var cut: nat := r.len - n;
    assert cut == b.len;
    assert Top(r, n) == Shr(r.v, cut);
  }

  /** Two fields pushed in turn are one field with the first in its low bits. */
  lemma PushPush(b: BitStack, v1: nat, n1: nat, v2: nat, n2: nat)
    requires b.Valid() && v1 < Pow2(n1) && v2 < Pow2(n2)
    ensures v1 + Shl(v2, n1) < Pow2(n1 + n2)
    ensures Push(Push(b, v1, n1), v2, n2) == Push(b, v1 + Shl(v2, n1), n1 + n2)
  {
    ShlBelow(v2, n2, n1);
    ShlShl(v2, n1, b.len);
    ShlAdd(v1, Shl(v2, n1), b.len);
  }

  // ----- bytes -----

  /** The little-endian value of `s`. */
  function LE(s: seq<byte>): nat {
    if |s| == 0 then 0 else s[0] + Shl(LE(s[1..]), 8)
  }

  lemma {:induction false} LEBound(s: seq<byte>)
    ensures LE(s) < Pow2(8 * |s|)
  {
    if |s| > 0 {
      LEBound(s[1..]);
      Pow2Values();
      ShlBelow(LE(s[1..]), 8 * |s[1..]|, 8);
    }
  }

  lemma {:induction false} LEConcat(a: seq<byte>, b: seq<byte>)
    ensures LE(a + b) == LE(a) + Shl(LE(b), 8 * |a|)
  {
    if |a| == 0 {
      assert a + b == b;
    } else {
      assert (a + b)[1..] == a[1..] + b;
      LEConcat(a[1..], b);
      ShlAdd(LE(a[1..]), Shl(LE(b), 8 * |a[1..]|), 8);
      ShlShl(LE(b), 8 * |a[1..]|, 8);
    }
  }

  /** A slice of bytes reads the matching bits of the whole. */
  lemma LESlice(s: seq<byte>, i: nat, j: nat)
    requires i <= j <= |s|
    ensures LE(s[i..j]) == Low(Shr(LE(s), 8 * i), 8 * (j - i))
  {
    hide Low, Shr, Shl, Pow2, LE;
    assert s == s[..i] + s[i..];
    assert s[i..] == s[i..j] + s[j..];
    LEConcat(s[..i], s[i..]);
    LEConcat(s[i..j], s[j..]);
    LEBound(s[..i]);
    LEBound(s[i..j]);
    SplitUnique(LE(s[..i]), LE(s[i..]), 8 * i);
    SplitUnique(LE(s[i..j]), LE(s[j..]), 8 * (j - i));
  }

  lemma LEZeros(s: seq<byte>)
    requires forall i :: 0 <= i < |s| ==> s[i] == 0
    ensures LE(s) == 0
  {
    if |s| > 0 {
      LEZeros(s[1..]);
      ShlOne(8);
    }
  }

  /** The `n` low bytes of `x`, lowest first, as `to_le_bytes` lays them out. */
  function ToLE(x: nat, n: nat): (s: seq<byte>)
    ensures |s| == n
  {
    if n == 0 then [] else [x % 256] + ToLE(x / 256, n - 1)
  }

  lemma ShrByte(x: nat)
    ensures Shr(x, 8) == x / 256 && Low(x, 8) == x % 256
  {
    ShlByte(x / 256);
    Pow2Values();
    SplitUnique(x % 256, x / 256, 8);
  }

  lemma {:induction false} LEToLE(x: nat, n: nat)
    ensures LE(ToLE(x, n)) == Low(x, 8 * n)
  {
    hide Shr, Shl, Pow2;
    if n > 0 {
      var t := ToLE(x / 256, n - 1);
      assert ToLE(x, n)[1..] == t;
      LEToLE(x / 256, n - 1);
      ShrByte(x);
      ShrLow(x, 8, 8 * (n - 1));
      LowLow(x, 8, 8 * n);
      SplitAt(Low(x, 8 * n), 8);
    }
  }

  // ----- closed streams -----

  /** Whether `src` ends with a byte holding the marker bit. */
  predicate Marked(src: seq<byte>) {
    |src| > 0 && src[|src| - 1] > 0
  }

  /** The bits below the marker, the last set bit of `src`. */
  function Unmark(src: seq<byte>): (b: BitStack)
    requires Marked(src)
    ensures b.Valid()
  {
    var len := 8 * (|src| - 1) + HighBit(src[|src| - 1]);
    BitStack(Low(LE(src), len), len)
  }

  lemma LELast(src: seq<byte>)
    requires |src| > 0
    ensures LE(src) == LE(src[..|src| - 1]) + Shl(src[|src| - 1], 8 * (|src| - 1))
    ensures LE(src[..|src| - 1]) < Pow2(8 * (|src| - 1))
  {
    var n := |src| - 1;
    assert src == src[..n] + [src[n]];
    LEConcat(src[..n], [src[n]]);
    LEBound(src[..n]);
    ShlOne(8);
    assert LE([src[n]]) == src[n];
  }

  lemma ByteHighBit(x: byte)
    requires x > 0
    ensures HighBit(x) < 8
  {
    Pow2Values();
    var h := HighBit(x);
    if h >= 8 { Pow2Mono(8, h); }
  }

  /** The marker is the top set bit of the stream's value, inside its last byte. */
  lemma MarkerPosition(src: seq<byte>)
    requires Marked(src)
    ensures 8 * (|src| - 1) <= Unmark(src).len < 8 * |src|
    ensures LE(src) == Unmark(src).v + Pow2(Unmark(src).len)
  {
    hide Low, Shr, Shl, Pow2, LE, HighBit;
    var n := |src| - 1;
    var last := src[n];
    var h := HighBit(last);
    ByteHighBit(last);
    LELast(src);
    MarkerValue(LE(src[..n]), last, h, 8 * n);
  }

  lemma MarkerValue(rest: nat, last: nat, h: nat, at: nat)
    requires rest < Pow2(at) && Pow2(h) <= last < Pow2(h + 1)
    ensures rest + Shl(last, at) == Low(rest + Shl(last, at), at + h) + Pow2(at + h)
  {
    hide Shl, Shr, Low, Pow2;
    var low: nat := last - Pow2(h);
    Pow2Step(h);
    ShlBelow(low, h, at);
    ShlAdd(low, Pow2(h), at);
    Pow2Add(h, at);
    ShlOne(at + h);
    SplitUnique(rest + Shl(low, at), 1, at + h);
  }

  /** Bytes are the marked stream of the bits their value minus marker spells. */
  lemma UnmarkUnique(src: seq<byte>, b: BitStack)
    requires b.Valid() && |src| == b.len / 8 + 1
    requires LE(src) == b.v + Pow2(b.len)
    ensures Marked(src) && Unmark(src) == b
  {
    LELast(src);
    ShlOne(8 * (|src| - 1));
    if src[|src| - 1] == 0 {
      Pow2Mono(8 * (|src| - 1), b.len);
    }
    MarkerPosition(src);
    var u := Unmark(src);
    HighBitUnique(LE(src), u.len);
    HighBitUnique(LE(src), b.len);
  }
}
