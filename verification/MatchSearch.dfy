/** What every match finder keeps: the sequences so far parse the block up to
    the anchor, with matches of four bytes and more that reach at most `far`. */
module MatchSearch {
  import opened Arith
  import opened Replay
  import opened Sequences
  import opened MatchCount

  /** A word of the input hashes to an index of the table. */
  type Hash = seq<byte> -> nat

  /** A table entry: a 32-bit position. */
  type Pos = x: nat | x < 0x1_0000_0000

  ghost predicate InTable(h: Hash, size: nat) {
    forall v :: h(v) < size
  }

  ghost predicate GoodMatch(s: Sequence, far: nat) {
    s.matchLength >= 4 && 0 < s.offset <= far
  }

  ghost predicate Found(src: seq<byte>, start: nat, seqs: seq<Sequence>, anchor: nat, far: nat) {
    && Parses(src, start, seqs) && start + Span(seqs) == anchor <= |src|
    && forall i :: 0 <= i < |seqs| ==> GoodMatch(seqs[i], far)
  }

  lemma NothingFound(src: seq<byte>, start: nat, far: nat)
    requires start <= |src|
    ensures Found(src, start, [], start, far)
  {
  }

  /** A match of equal bytes extends the parse. */
  lemma Emit(src: seq<byte>, start: nat, seqs: seq<Sequence>, anchor: nat, far: nat, s: Sequence)
    requires Found(src, start, seqs, anchor, far) && GoodMatch(s, far) && s.offset <= anchor + s.literalLength
    requires SameBytes(src, anchor + s.literalLength, anchor + s.literalLength - s.offset, s.matchLength)
    ensures Found(src, start, seqs + [s], anchor + s.Span(), far)
  {
    var at := anchor + s.literalLength;
    forall k | at <= k < at + s.matchLength ensures src[k] == src[k - s.offset] {
      SameAt(src, at, at - s.offset, s.matchLength, k - at);
    }
    assert Repeats(src, at, at + s.matchLength, s.offset);
    ParsesAppend(src, start, seqs, s);
  }

  /** Entries of a position table all lie before `bound`. */
  ghost predicate Below(t: array<Pos>, bound: nat)
    reads t
  {
    forall i :: 0 <= i < t.Length ==> t[i] < bound
  }

  /** `n` bytes of the input. */
  function Word(src: seq<byte>, at: nat, n: nat): (w: seq<byte>)
    requires at + n <= |src|
    ensures |w| == n
  {
    src[at..at + n]
  }

  /** Equal words, and equal bytes after them. */
  lemma WordThen(src: seq<byte>, a: nat, b: nat, n: nat, m: nat)
    requires a + n <= |src| && b + n <= |src| && Word(src, a, n) == Word(src, b, n)
    requires SameBytes(src, a + n, b + n, m)
    ensures SameBytes(src, a, b, n + m)
  {
    SameConcat(src, a, b, n, m);
  }

  lemma PartOfWord(src: seq<byte>, at: nat, n: nat, i: nat, j: nat)
    requires at + n <= |src| && i <= j <= n
    ensures Word(src, at, n)[i..j] == Word(src, at + i, j - i)
  {
    var w := src[at..at + n];
    forall k | 0 <= k < j - i ensures w[i..j][k] == src[at + i..at + i + (j - i)][k] {
      assert w[i..j][k] == w[i + k] == src[at + i + k];
    }
  }

  /** The sequence of a match of `n` confirmed bytes at `ip`, with `back` bytes
      before them and `more` after. */
  function MatchSequence(anchor: nat, ip: nat, m: nat, back: nat, n: nat, more: nat): Sequence
    requires anchor + back <= ip && m <= ip
  {
    Sequence(ip - back - anchor, more + n + back, ip - m)
  }

  lemma EmitBack(src: seq<byte>, start: nat, seqs: seq<Sequence>, anchor: nat, far: nat, ip: nat, m: nat, back: nat, length: nat)
    requires Found(src, start, seqs, anchor, far) && anchor + back <= ip && back <= m < ip && length >= 4 && ip - m <= far
    requires SameBytes(src, ip - back, m - back, back) && SameBytes(src, ip, m, length)
    ensures Found(src, start, seqs + [Sequence(ip - back - anchor, length + back, ip - m)], ip + length, far)
  {
    hide Found, SameBytes;
    SameConcat(src, ip - back, m - back, back, length);
    Emit(src, start, seqs, anchor, far, Sequence(ip - back - anchor, length + back, ip - m));
  }

  lemma EmitAround(src: seq<byte>, start: nat, seqs: seq<Sequence>, anchor: nat, far: nat, ip: nat, m: nat, back: nat, n: nat,
                   more: nat)
    requires Found(src, start, seqs, anchor, far) && anchor + back <= ip && back <= m < ip && n >= 4 && ip - m <= far
    requires SameBytes(src, ip - back, m - back, back) && ip + n <= |src| && Word(src, ip, n) == Word(src, m, n)
    requires SameBytes(src, ip + n, m + n, more)
    ensures Found(src, start, seqs + [MatchSequence(anchor, ip, m, back, n, more)], ip + n + more, far)
  {
    hide Found, SameBytes, Word;
    WordThen(src, ip, m, n, more);
    EmitBack(src, start, seqs, anchor, far, ip, m, back, n + more);
  }

  /** A wrapping 64-bit difference. */
  function WrapSub64(a: nat, b: nat): nat
    requires b < 0x1_0000_0000_0000_0000
  {
    if a >= b then a - b else 0x1_0000_0000_0000_0000 + a - b
  }
}
