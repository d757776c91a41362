/** Counting equal bytes, eight at a time: the exclusive or of two words tells
    the first or the last byte in which they differ. */
module MatchCount {
  import opened Arith
  import opened Bits
  import opened SeqCodes

  function BitXor(a: nat, b: nat): nat
    decreases a + b
  {
    if a == 0 && b == 0 then 0
    else 2 * BitXor(a / 2, b / 2) + (if a % 2 == b % 2 then 0 else 1)
  }

  lemma XorStep(x: nat, y: nat)
    ensures BitXor(x, y) % 2 == (if x % 2 == y % 2 then 0 else 1) && BitXor(x, y) / 2 == BitXor(x / 2, y / 2)
  {
  }

  /** Low bits agree where the exclusive or has none. */
  lemma {:induction false} XorLow(x: nat, y: nat, n: nat)
    ensures Low(BitXor(x, y), n) == 0 <==> Low(x, n) == Low(y, n)
  {
    XorStep(x, y);
    if n > 0 {
      XorLow(x / 2, y / 2, n - 1);
    }
  }

  lemma {:induction false} XorZero(x: nat, y: nat)
    ensures BitXor(x, y) == 0 <==> x == y
    decreases x + y
  {
    if x != 0 || y != 0 {
      XorStep(x, y);
      XorZero(x / 2, y / 2);
    }
  }

  /** High bits agree when the exclusive or ends below them. */
  lemma {:induction false} XorHigh(x: nat, y: nat, n: nat)
    ensures BitXor(x, y) < Pow2(n) <==> Shr(x, n) == Shr(y, n)
  {
    if n == 0 {
      XorZero(x, y);
    } else {
      XorStep(x, y);
      XorHigh(x / 2, y / 2, n - 1);
    }
  }

  lemma {:induction false} ZerosBelow(x: nat, n: nat)
    requires x > 0
    ensures Low(x, n) == 0 <==> TrailingZeros(x) >= n
  {
    if n > 0 && x % 2 == 0 {
      ZerosBelow(x / 2, n - 1);
    }
  }

  lemma {:induction false} LEInjective(a: seq<byte>, b: seq<byte>)
    requires |a| == |b| && LE(a) == LE(b)
    ensures a == b
  {
    if |a| > 0 {
      ShlByte(LE(a[1..]));
      ShlByte(LE(b[1..]));
      LEInjective(a[1..], b[1..]);
      assert a == [a[0]] + a[1..] && b == [b[0]] + b[1..];
    }
  }

  lemma EqualPrefix(a: seq<byte>, b: seq<byte>, k: nat)
    requires k <= |a| == |b|
    ensures Low(LE(a), 8 * k) == Low(LE(b), 8 * k) <==> a[..k] == b[..k]
  {
    hide Low, Shr, LE;
    ShrZero(LE(a));
    ShrZero(LE(b));
    LESlice(a, 0, k);
    LESlice(b, 0, k);
    assert a[0..k] == a[..k] && b[0..k] == b[..k];
    if LE(a[..k]) == LE(b[..k]) {
      LEInjective(a[..k], b[..k]);
    }
  }

  lemma EqualSuffix(a: seq<byte>, b: seq<byte>, k: nat)
    requires k <= |a| == |b|
    ensures Shr(LE(a), 8 * k) == Shr(LE(b), 8 * k) <==> a[k..] == b[k..]
  {
    hide Low, Shr, LE, Shl;
    ShrLE(a, k);
    ShrLE(b, k);
    if LE(a[k..]) == LE(b[k..]) {
      LEInjective(a[k..], b[k..]);
    }
  }

  lemma ShrLE(a: seq<byte>, k: nat)
    requires k <= |a|
    ensures Shr(LE(a), 8 * k) == LE(a[k..])
  {
    hide Low, Shr, LE, Shl;
    assert a == a[..k] + a[k..];
    LEConcat(a[..k], a[k..]);
    LEBound(a[..k]);
    SplitUnique(LE(a[..k]), LE(a[k..]), 8 * k);
  }

  /** The lowest byte in which two words differ. */
  lemma FirstDifference(a: seq<byte>, b: seq<byte>)
    requires |a| == |b| == 8 && a != b
    ensures BitXor(LE(a), LE(b)) > 0
    ensures var k := TrailingZeros(BitXor(LE(a), LE(b))) / 8; k < 8 && a[..k] == b[..k] && a[k] != b[k]
  {
    hide Low, LE, BitXor, TrailingZeros;
    XorZero(LE(a), LE(b));
    if LE(a) == LE(b) {
      LEInjective(a, b);
    }
    var d := BitXor(LE(a), LE(b));
    var k := TrailingZeros(d) / 8;
    assert a[..8] == a && b[..8] == b;
    forall j: nat | j <= 8 ensures TrailingZeros(d) >= 8 * j <==> a[..j] == b[..j] {
      ZerosBelow(d, 8 * j);
      XorLow(LE(a), LE(b), 8 * j);
      EqualPrefix(a, b, j);
    }
    assert k < 8;
    assert k + 1 <= 8;
    NextEqual(a, b, k);
  }

  lemma NextEqual(a: seq<byte>, b: seq<byte>, k: nat)
    requires k < |a| == |b| && a[..k] == b[..k]
    ensures a[..k + 1] == b[..k + 1] <==> a[k] == b[k]
  {
    assert a[..k + 1] == a[..k] + [a[k]] && b[..k + 1] == b[..k] + [b[k]];
  }

  lemma PreviousEqual(a: seq<byte>, b: seq<byte>, k: nat)
    requires 0 < k <= |a| == |b| && a[k..] == b[k..]
    ensures a[k - 1..] == b[k - 1..] <==> a[k - 1] == b[k - 1]
  {
    assert a[k - 1..] == [a[k - 1]] + a[k..] && b[k - 1..] == [b[k - 1]] + b[k..];
  }

  /** The highest. */
  lemma LastDifference(a: seq<byte>, b: seq<byte>)
    requires |a| == |b| == 8 && a != b
    ensures BitXor(LE(a), LE(b)) > 0 && HighBit(BitXor(LE(a), LE(b))) < 64
    ensures var k := (63 - HighBit(BitXor(LE(a), LE(b)))) / 8; k < 8 && a[8 - k..] == b[8 - k..] && a[7 - k] != b[7 - k]
  {
    hide Low, LE, BitXor, HighBit, Shr, Pow2;
    XorZero(LE(a), LE(b));
    if LE(a) == LE(b) {
      LEInjective(a, b);
    }
    var d := BitXor(LE(a), LE(b));
    assert a[0..] == a && b[0..] == b;
    forall j: nat | j <= 8 ensures HighBit(d) < 8 * j <==> a[j..] == b[j..] {
      HighBitBelow(d, 8 * j);
      XorHigh(LE(a), LE(b), 8 * j);
      EqualSuffix(a, b, j);
    }
    assert a[8..] == b[8..];
    var k := (63 - HighBit(d)) / 8;
    PreviousEqual(a, b, 8 - k);
  }

  // ----- counting -----

  /** From `a` and `b` on, `n` bytes are equal. */
  ghost predicate SameBytes(src: seq<byte>, a: nat, b: nat, n: nat) {
    a + n <= |src| && b + n <= |src| && src[a..a + n] == src[b..b + n]
  }

  lemma SameAt(src: seq<byte>, a: nat, b: nat, n: nat, k: nat)
    requires SameBytes(src, a, b, n) && k < n
    ensures src[a + k] == src[b + k]
  {
    assert src[a + k] == src[a..a + n][k] == src[b..b + n][k];
  }

  lemma SameConcat(src: seq<byte>, a: nat, b: nat, n: nat, m: nat)
    requires SameBytes(src, a, b, n) && SameBytes(src, a + n, b + n, m)
    ensures SameBytes(src, a, b, n + m)
  {
    assert src[a..a + n + m] == src[a..a + n] + src[a + n..a + n + m];
    assert src[b..b + n + m] == src[b..b + n] + src[b + n..b + n + m];
  }

  lemma Nothing(src: seq<byte>, a: nat, b: nat)
    requires a <= |src| && b <= |src|
    ensures SameBytes(src, a, b, 0)
  {
  }

  lemma OneSame(src: seq<byte>, a: nat, b: nat)
    requires a < |src| && b < |src| && src[a] == src[b]
    ensures SameBytes(src, a, b, 1)
  {
  }

  /** Equal bytes at the front of two words. */
  lemma PrefixSame(src: seq<byte>, a: nat, b: nat, k: nat)
    requires a + 8 <= |src| && b + 8 <= |src| && k <= 8 && src[a..a + 8][..k] == src[b..b + 8][..k]
    ensures SameBytes(src, a, b, k)
  {
    assert src[a..a + k] == src[a..a + 8][..k] && src[b..b + k] == src[b..b + 8][..k];
  }

  /** Equal bytes of the words that begin at `p` and `q`. */
  method EqualAhead(src: seq<byte>, p: nat, q: nat) returns (k: nat)
    requires p + 8 <= |src| && q + 8 <= |src|
    ensures k <= 8 && SameBytes(src, p, q, k) && (k < 8 ==> src[p + k] != src[q + k])
  {
    hide LE, BitXor, TrailingZeros, SameBytes;
    var a, b := src[p..p + 8], src[q..q + 8];
    var diff := BitXor(LE(a), LE(b));
    XorZero(LE(a), LE(b));
    if diff == 0 {
      LEInjective(a, b);
      k := 8;
    } else {
      FirstDifference(a, b);
      k := TrailingZeros(diff) / 8;
    }
    PrefixSame(src, p, q, k);
  }

  /** Equal bytes of the words that end at `p` and `q`. */
  method EqualBehind(src: seq<byte>, p: nat, q: nat) returns (k: nat)
    requires 8 <= p <= |src| && 8 <= q <= |src|
    ensures k <= 8 && SameBytes(src, p - k, q - k, k) && (k < 8 ==> src[p - k - 1] != src[q - k - 1])
  {
    hide LE, BitXor, HighBit, SameBytes;
    var a, b := src[p - 8..p], src[q - 8..q];
    var diff := BitXor(LE(a), LE(b));
    XorZero(LE(a), LE(b));
    if diff == 0 {
      LEInjective(a, b);
      k := 8;
    } else {
      LastDifference(a, b);
      k := (63 - HighBit(diff)) / 8;
    }
    SuffixBack(src, p, q, a, b, k);
  }

  /** Equal bytes forward from `p1` and `p2`, up to `limit`: as many as there are. */
  method CountMatch(src: seq<byte>, p1: nat, p2: nat, limit: nat) returns (n: nat)
    requires p2 < p1 <= limit <= |src|
    ensures p1 + n <= limit && SameBytes(src, p1, p2, n)
    ensures p1 + n == limit || src[p1 + n] != src[p2 + n]
  {
    hide SameBytes;
    n := 0;
    Nothing(src, p1, p2);
    while p1 + n + 8 <= limit
      invariant p1 + n <= limit && SameBytes(src, p1, p2, n)
    {
      var k := EqualAhead(src, p1 + n, p2 + n);
      SameConcat(src, p1, p2, n, k);
      n := n + k;
      if k < 8 {
        return;
      }
    }
    while p1 + n < limit && src[p1 + n] == src[p2 + n]
      invariant p1 + n <= limit && SameBytes(src, p1, p2, n)
    {
      OneSame(src, p1 + n, p2 + n);
      SameConcat(src, p1, p2, n, 1);
      n := n + 1;
    }
  }

  /** The last steps, byte by byte. */
  method BytesBack(src: seq<byte>, a: nat, b: nat, most: nat, from: nat) returns (back: nat)
    requires b < a <= |src| && from <= most <= b && SameBytes(src, a - from, b - from, from)
    ensures back <= most && SameBytes(src, a - back, b - back, back)
    ensures back == most || src[a - back - 1] != src[b - back - 1]
  {
    hide SameBytes;
    back := from;
    while back < most && src[a - back - 1] == src[b - back - 1]
      invariant back <= most && SameBytes(src, a - back, b - back, back)
    {
      OneBack(src, a, b, back);
      back := back + 1;
    }
  }

  /** Equal bytes backward from `a` and `b`, up to `most`: as many as there are. */
  method CountBack(src: seq<byte>, a: nat, b: nat, most: nat) returns (back: nat)
    requires b < a <= |src| && most <= b
    ensures back <= most && SameBytes(src, a - back, b - back, back)
    ensures back == most || src[a - back - 1] != src[b - back - 1]
  {
    hide SameBytes;
    back := 0;
    Nothing(src, a, b);
    while back < most
      invariant back <= b && SameBytes(src, a - back, b - back, back)
    {
      var pa: nat, pb: nat := a - back, b - back;
      if pb < 8 {
        back := BytesBack(src, a, b, most, back);
        return;
      }
      var k := EqualBehind(src, pa, pb);
      SameConcat(src, pa - k, pb - k, k, back);
      back := back + k;
      if k < 8 {
        FewerBack(src, a, b, back, Min(back, most));
        return Min(back, most);
      }
    }
    FewerBack(src, a, b, back, most);
    back := most;
  }

  lemma OneBack(src: seq<byte>, a: nat, b: nat, back: nat)
    requires b < a <= |src| && back < b && SameBytes(src, a - back, b - back, back) && src[a - back - 1] == src[b - back - 1]
    ensures SameBytes(src, a - back - 1, b - back - 1, back + 1)
  {
    assert src[a - back - 1..a - back] == [src[a - back - 1]] && src[b - back - 1..b - back] == [src[b - back - 1]];
    SameConcat(src, a - back - 1, b - back - 1, 1, back);
  }

  lemma SuffixBack(src: seq<byte>, pa: nat, pb: nat, x: seq<byte>, y: seq<byte>, k: nat)
    requires 8 <= pa <= |src| && 8 <= pb <= |src| && k <= 8
    requires x == src[pa - 8..pa] && y == src[pb - 8..pb] && x[8 - k..] == y[8 - k..]
    ensures SameBytes(src, pa - k, pb - k, k)
  {
    assert src[pa - k..pa] == x[8 - k..] && src[pb - k..pb] == y[8 - k..];
  }

  lemma FewerBack(src: seq<byte>, a: nat, b: nat, n: nat, m: nat)
    requires b < a <= |src| && m <= n <= b && SameBytes(src, a - n, b - n, n)
    ensures SameBytes(src, a - m, b - m, m)
  {
    assert src[a - m..a] == src[a - n..a][n - m..] && src[b - m..b] == src[b - n..b][n - m..];
  }
}
