/** Headers that the encoder writes and the decoder reads back: literals sections,
    sequence counts and blocks. */
module BlockHeaders {
  import opened Arith
  import opened Wrappers
  import opened BlockFormat
  import opened FrameFormat

  /** Three digits to the base 256, lowest first. */
  function Digit(x: nat, i: nat): byte {
    if i == 0 then x % 256 else Digit(x / 256, i - 1)
  }

  lemma TwoDigits(x: nat)
    requires x < 65536
    ensures Digit(x, 0) as nat + 256 * Digit(x, 1) as nat == x
  {
    assert Digit(x, 1) == Digit(x / 256, 0);
  }

  lemma ThreeDigits(x: nat)
    requires x < 0x100_0000
    ensures Digit(x, 0) as nat + 256 * Digit(x, 1) as nat + 65536 * Digit(x, 2) as nat == x
  {
    assert Digit(x, 1) == Digit(x / 256, 0) && Digit(x, 2) == Digit(x / 256, 1);
    TwoDigits(x / 256);
  }

  /** A raw literals header: five, twelve or twenty bits of size. */
  function RawLiteralsHeader(size: nat): (h: seq<byte>)
    ensures 1 <= |h| <= 3
  {
    if size <= 31 then [size % 32 * 8]
    else if size <= 4095 then [4 + size % 16 * 16, Digit(size / 16, 0)]
    else [12 + size % 16 * 16, Digit(size / 16, 0), Digit(size / 16, 1)]
  }

  /** Read back, whatever follows. */
  lemma RawHeaderRoundTrip(size: nat, data: seq<byte>)
    requires size <= MAX_BLOCK_SIZE && RawLiteralsHeader(size) <= data
    ensures data[0] % 4 == 0 && RawHeader(data) == Some(LitHeader(size, 0, 0, |RawLiteralsHeader(size)|))
  {
    hide Digit;
    var h := RawLiteralsHeader(size);
    assert data[0] == h[0];
    if size > 31 {
      assert data[1] == h[1];
      LowNibble(4, size);
      if size > 4095 {
        assert data[2] == h[2];
        LowNibble(12, size);
        TwoDigits(size / 16);
      } else {
        SmallDigit(size / 16);
      }
    }
  }

  /** A first byte of two format bits and four size bits. */
  lemma LowNibble(format: nat, size: nat)
    requires format == 4 || format == 12
    ensures var b := format + size % 16 * 16; b % 4 == 0 && b / 4 % 4 == format / 4 && b / 16 == size % 16
  {
    var n := size % 16;
    assert (format + n * 16) / 4 == format / 4 + 4 * n;
  }

  lemma SmallDigit(x: nat)
    requires x < 256
    ensures Digit(x, 0) == x
  {
  }

  lemma RawLiteralsRoundTrip(lits: seq<byte>, rest: seq<byte>)
    requires |lits| <= MAX_BLOCK_SIZE
    ensures var data := RawLiteralsHeader(|lits|) + lits + rest;
      data[0] % 4 == 0 && PlainLiterals(data) == Ok((|data| - |rest|, lits))
  {
    hide RawHeader, RawLiteralsHeader;
    var h := RawLiteralsHeader(|lits|);
    var data := h + lits + rest;
    assert data == h + (lits + rest);
    RawHeaderRoundTrip(|lits|, data);
    assert data[|h|..|h| + |lits|] == lits;
  }

  function CountBytes(n: nat): (b: seq<byte>)
    ensures 1 <= |b| <= 3
  {
    if n < 128 then [n]
    else if n < 0x7F00 then [(n / 256 + 128) % 256, n % 256]
    else [255, Digit(n - 0x7F00, 0), Digit(n - 0x7F00, 1)]
  }

  lemma CountRoundTrip(n: nat, rest: seq<byte>)
    requires n < 98048
    ensures SequenceCount(CountBytes(n) + rest) == Some((n, |CountBytes(n)|))
  {
    var b := CountBytes(n);
    assert (b + rest)[..|b|] == b;
    if n >= 0x7F00 {
      TwoDigits(n - 0x7F00);
    }
  }

  /** A block header: size, type and the last-block flag in 24 bits. */
  function HeaderWord(last: bool, kind: nat, size: nat): nat {
    8 * size + 2 * kind + (if last then 1 else 0)
  }

  function BlockHeaderBytes(last: bool, kind: nat, size: nat): (h: seq<byte>)
    ensures |h| == 3
  {
    var raw := HeaderWord(last, kind, size);
    [Digit(raw, 0), Digit(raw, 1), Digit(raw, 2)]
  }

  function KindOf(kind: nat): BlockType {
    if kind == 0 then Raw else if kind == 1 then Rle else Compressed
  }

  lemma BlockHeaderRoundTrip(last: bool, kind: nat, size: nat)
    requires kind < 3 && size < 0x20_0000
    ensures var h := BlockHeaderBytes(last, kind, size);
      ParseBlockHeader(h[0], h[1], h[2]) == Some(BlockHeader(last, KindOf(kind), size))
  {
    hide Digit, HeaderWord;
    HeaderParts(last, kind, size);
    ThreeDigits(HeaderWord(last, kind, size));
  }

  lemma HeaderParts(last: bool, kind: nat, size: nat)
    requires kind < 3 && size < 0x20_0000
    ensures var raw := HeaderWord(last, kind, size);
      raw < 0x100_0000 && raw % 2 == (if last then 1 else 0) && raw / 2 % 4 == kind && raw / 8 == size
  {
    assert HeaderWord(last, kind, size) / 2 == 4 * size + kind;
  }
}
