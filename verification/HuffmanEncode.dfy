/** Huffman streams, one and four, written by the encoder, and the proof that
    the decoder's table reads their symbols back. */
module HuffmanEncode {
  import opened Arith
  import opened Bits
  import opened Wrappers
  import opened Huffman
  import opened HuffmanCode
  import opened HuffmanFour
  import opened SeqWriter

  // ----- the specification -----

  /** Every symbol has a code that fits the table. */
  ghost predicate Encodable(e: EncodeTable, data: seq<byte>) {
    && |e.codes| == |e.bits| == 256 && 1 <= e.log <= MAX_TABLE_LOG
    && forall i :: 0 <= i < |data| ==> 0 < e.bits[data[i]] <= e.log && e.codes[data[i]] < Pow2(e.bits[data[i]])
  }

  /** The codes, last symbol first. */
  ghost function SymbolBits(e: EncodeTable, data: seq<byte>): (b: BitStack)
    requires Encodable(e, data)
    ensures b.Valid()
  {
    if |data| == 0 then EMPTY else Push(SymbolBits(e, data[1..]), e.codes[data[0]], e.bits[data[0]])
  }

  /** A table encodes data when each byte has a code. */
  predicate CanEncode(e: EncodeTable, data: seq<byte>)
    requires |e.bits| == 256
  {
    forall i :: 0 <= i < |data| ==> e.bits[data[i]] > 0
  }

  lemma LinkedEncodes(e: EncodeTable, t: HufTable, data: seq<byte>)
    requires Linked(e, t) && CanEncode(e, data)
    ensures Encodable(e, data)
  {
    forall i | 0 <= i < |data| ensures 0 < e.bits[data[i]] <= e.log && e.codes[data[i]] < Pow2(e.bits[data[i]]) {
      assert Points(e, t, data[i]);
    }
  }

  // ----- the round trip -----

  /** What a decoder peeks after a code is pushed: the code, then anything. */
  lemma PeekPushed(b: BitStack, c: nat, n: nat, log: nat)
    requires b.Valid() && c < Pow2(n) && n <= log
    ensures Shl(c, log - n) <= Peek(Push(b, c, n), log) < Shl(c, log - n) + Pow2(log - n)
  {
    hide Shl, Shr, Pow2, Low;
    var v := b.v + Shl(c, b.len);
    var d := log - n;
    if b.len >= d {
      var k := b.len - d;
      ShlShl(c, d, k);
      SplitAt(b.v, k);
      ShlAdd(Shr(b.v, k), Shl(c, d), k);
      SplitUnique(Low(b.v, k), Shr(b.v, k) + Shl(c, d), k);
      ShrBelow(b.v, d, k);
    } else {
      var k := d - b.len;
      ShlShl(c, b.len, k);
      ShlAdd(b.v, Shl(c, b.len), k);
      ShlBelow(b.v, b.len, k);
      Pow2Mono(0, k);
    }
  }

  lemma EntryPushed(e: EncodeTable, t: HufTable, b: BitStack, s: byte)
    requires Linked(e, t) && b.Valid() && e.bits[s] > 0 && e.codes[s] < Pow2(e.bits[s])
    ensures EntryAt(t, Push(b, e.codes[s], e.bits[s])) == HufEntry(s, e.bits[s])
  {
    hide Shl, Pow2, Peek, Push;
    assert Points(e, t, s);
    var p := Push(b, e.codes[s], e.bits[s]);
    PeekPushed(b, e.codes[s], e.bits[s], t.log);
    assert RowIs(t, Peek(p, t.log), s, e.bits[s]);
  }

  /** Written symbols are read back, and nothing is left. */
  lemma {:induction false} SymbolsRoundTrip(e: EncodeTable, t: HufTable, data: seq<byte>)
    requires Linked(e, t) && Encodable(e, data)
    ensures Symbols(t, SymbolBits(e, data), |data|) == Some(data)
  {
    hide EntryAt, Push, Rest, Top, Pow2, Points;
    if |data| > 0 {
      var rest := SymbolBits(e, data[1..]);
      EntryPushed(e, t, rest, data[0]);
      PopPush(rest, e.codes[data[0]], e.bits[data[0]]);
      SymbolsRoundTrip(e, t, data[1..]);
      assert [data[0]] + data[1..] == data;
    }
  }

  lemma StreamRoundTrip(e: EncodeTable, t: HufTable, data: seq<byte>, bytes: seq<byte>)
    requires Linked(e, t) && Encodable(e, data) && Marked(bytes) && Unmark(bytes) == SymbolBits(e, data)
    ensures StreamSymbols(t, bytes, |data|) == Some(data)
  {
    hide Symbols, Unmark, SymbolBits, Points;
    SymbolsRoundTrip(e, t, data);
  }

  lemma {:induction false} BitsBound(e: EncodeTable, data: seq<byte>)
    requires Encodable(e, data)
    ensures SymbolBits(e, data).len <= 11 * |data|
  {
    if |data| > 0 {
      BitsBound(e, data[1..]);
    }
  }

  // ----- writing -----

  /** Writes symbol `i`, after those behind it. */
  method Put(sink: BitSink, e: EncodeTable, data: seq<byte>, i: nat)
    requires sink.Valid() && sink.bitsUsed + 11 < WORD && i < |data| && Encodable(e, data)
    requires Encodable(e, data[i + 1..]) && sink.Written() == SymbolBits(e, data[i + 1..])
    modifies sink`bits, sink`bitsUsed
    ensures sink.Valid() && sink.bitsUsed <= old(sink.bitsUsed) + 11
    ensures Encodable(e, data[i..]) && sink.Written() == SymbolBits(e, data[i..])
  {
    hide Push, Pow2;
    assert data[i..][1..] == data[i + 1..] && data[i..][0] == data[i];
    sink.AddBits(e.codes[data[i]], e.bits[data[i]]);
  }

  /** One stream: groups of four from the end, then the symbols left at the front. */
  method EncodeSingleStream(e: EncodeTable, data: seq<byte>, scratch: seq<byte>) returns (bytes: seq<byte>)
    requires Encodable(e, data)
    ensures Marked(bytes) && Unmark(bytes) == SymbolBits(e, data)
  {
    hide Push, Pow2, Shl, Marked, Unmark, Encodable, SymbolBits;
    var sink := new BitSink(scratch);
    var i: nat := |data|;
    NoSymbols(e, data);
    while i >= 4
      invariant i <= |data| && fresh(sink) && sink.Valid() && sink.bitsUsed < 8
      invariant Encodable(e, data[i..]) && sink.Written() == SymbolBits(e, data[i..])
    {
      Put(sink, e, data, i - 1);
      Put(sink, e, data, i - 2);
      Put(sink, e, data, i - 3);
      Put(sink, e, data, i - 4);
      sink.Flush();
      i := i - 4;
    }
    while i > 0
      invariant i <= 3 && i <= |data| && fresh(sink) && sink.Valid() && sink.bitsUsed < 8 + 11 * (3 - i)
      invariant Encodable(e, data[i..]) && sink.Written() == SymbolBits(e, data[i..])
    {
      Put(sink, e, data, i - 1);
      i := i - 1;
    }
    assert data[0..] == data;
    sink.Flush();
    bytes := sink.CloseFlushed();
  }

  lemma NoSymbols(e: EncodeTable, data: seq<byte>)
    requires Encodable(e, data)
    ensures Encodable(e, data[|data|..]) && SymbolBits(e, data[|data|..]) == EMPTY
  {
  }

  /** A stream's length in two bytes. */
  function Jump(n: nat): (j: seq<byte>)
    ensures |j| == 2
  {
    [n % 256, n / 256 % 256]
  }

  lemma JumpReads(n: nat)
    requires n < 65536
    ensures Word16(Jump(n)[0] as nat, Jump(n)[1] as nat) == n
  {
  }

  /** The quarters of the data: three of the same size and the rest. */
  function Quarter(data: seq<byte>, i: nat): seq<byte>
    requires i < 4
  {
    var seg := Segment(|data|);
    if i < 3 then data[Min(i * seg, |data|)..Min((i + 1) * seg, |data|)] else data[Min(3 * seg, |data|)..]
  }

  method Encode4Streams(e: EncodeTable, data: seq<byte>) returns (bytes: seq<byte>, ghost s: Split4)
    requires Encodable(e, data)
    ensures bytes == Jump(|s.s1|) + Jump(|s.s2|) + Jump(|s.s3|) + (s.s1 + s.s2 + s.s3 + s.s4)
    ensures IsStream(e, Quarter(data, 0), s.s1) && IsStream(e, Quarter(data, 1), s.s2)
    ensures IsStream(e, Quarter(data, 2), s.s3) && IsStream(e, Quarter(data, 3), s.s4)
  {
    hide Marked, Unmark, SymbolBits, Segment;
    QuartersEncodable(e, data);
    var s1 := EncodeSingleStream(e, Quarter(data, 0), []);
    var s2 := EncodeSingleStream(e, Quarter(data, 1), []);
    var s3 := EncodeSingleStream(e, Quarter(data, 2), []);
    var s4 := EncodeSingleStream(e, Quarter(data, 3), []);
    s := Split4(s1, s2, s3, s4);
    bytes := Jump(|s1|) + Jump(|s2|) + Jump(|s3|) + (s1 + s2 + s3 + s4);
  }

  ghost predicate IsStream(e: EncodeTable, data: seq<byte>, bytes: seq<byte>) {
    Encodable(e, data) && Marked(bytes) && Unmark(bytes) == SymbolBits(e, data)
  }

  lemma QuartersEncodable(e: EncodeTable, data: seq<byte>)
    requires Encodable(e, data)
    ensures forall i :: 0 <= i < 4 ==> Encodable(e, Quarter(data, i))
  {
    hide Pow2;
  }

  /** A stream takes at most eleven bits a symbol, and its marker. */
  lemma StreamLength(e: EncodeTable, data: seq<byte>, bytes: seq<byte>)
    requires IsStream(e, data, bytes)
    ensures |bytes| <= 11 * |data| / 8 + 1
  {
    hide Unmark, SymbolBits;
    BitsBound(e, data);
    MarkerPosition(bytes);
  }

  lemma QuarterSizes(data: seq<byte>)
    requires 3 * Segment(|data|) <= |data|
    ensures |Quarter(data, 0)| == |Quarter(data, 1)| == |Quarter(data, 2)| == Segment(|data|)
    ensures |Quarter(data, 3)| == |data| - 3 * Segment(|data|)
    ensures Quarter(data, 0) + Quarter(data, 1) + Quarter(data, 2) + Quarter(data, 3) == data
  {
  }

  /** Four streams are read back whenever the fourth is not empty. */
  lemma FourRoundTrip(e: EncodeTable, t: HufTable, data: seq<byte>, bytes: seq<byte>, s: Split4)
    requires Linked(e, t) && 3 * Segment(|data|) < |data| <= 131072
    requires bytes == Jump(|s.s1|) + Jump(|s.s2|) + Jump(|s.s3|) + (s.s1 + s.s2 + s.s3 + s.s4)
    requires IsStream(e, Quarter(data, 0), s.s1) && IsStream(e, Quarter(data, 1), s.s2)
    requires IsStream(e, Quarter(data, 2), s.s3) && IsStream(e, Quarter(data, 3), s.s4)
    ensures FourSymbols(t, bytes, |data|) == Some(data)
  {
    hide StreamSymbols, Points, IsStream, Linked, Quarter, Jump, SplitStreams;
    QuarterSizes(data);
    StreamLength(e, Quarter(data, 0), s.s1);
    StreamLength(e, Quarter(data, 1), s.s2);
    StreamLength(e, Quarter(data, 2), s.s3);
    SplitBack(bytes, s);
    QuarterReads(e, t, Quarter(data, 0), s.s1);
    QuarterReads(e, t, Quarter(data, 1), s.s2);
    QuarterReads(e, t, Quarter(data, 2), s.s3);
    QuarterReads(e, t, Quarter(data, 3), s.s4);
  }

  lemma QuarterReads(e: EncodeTable, t: HufTable, data: seq<byte>, bytes: seq<byte>)
    requires Linked(e, t) && IsStream(e, data, bytes)
    ensures t.Valid() && StreamSymbols(t, bytes, |data|) == Some(data)
  {
    hide SymbolBits, Unmark, Points;
    StreamRoundTrip(e, t, data, bytes);
  }

  /** The jump table gives the streams back. */
  lemma SplitBack(bytes: seq<byte>, s: Split4)
    requires |s.s1| < 65536 && |s.s2| < 65536 && |s.s3| < 65536
    requires bytes == Jump(|s.s1|) + Jump(|s.s2|) + Jump(|s.s3|) + (s.s1 + s.s2 + s.s3 + s.s4)
    ensures SplitStreams(bytes) == Some(s)
  {
    hide Jump;
    FrontOf(Jump(|s.s1|), Jump(|s.s2|), Jump(|s.s3|), s.s1 + s.s2 + s.s3 + s.s4, bytes);
    JumpReads(|s.s1|);
    JumpReads(|s.s2|);
    JumpReads(|s.s3|);
    FourParts(bytes, 6, s);
  }

  lemma FrontOf(a: seq<byte>, b: seq<byte>, c: seq<byte>, rest: seq<byte>, bytes: seq<byte>)
    requires |a| == |b| == |c| == 2 && bytes == a + b + c + rest
    ensures bytes[0] == a[0] && bytes[1] == a[1] && bytes[2] == b[0] && bytes[3] == b[1] && bytes[4] == c[0] && bytes[5] == c[1]
    ensures bytes[6..] == rest
  {
  }

  lemma FourParts(bytes: seq<byte>, at: nat, s: Split4)
    requires at <= |bytes| && bytes[at..] == s.s1 + s.s2 + s.s3 + s.s4
    ensures var a2 := at + |s.s1|; var a3 := a2 + |s.s2|; var a4 := a3 + |s.s3|;
      a4 <= |bytes| && bytes[at..a2] == s.s1 && bytes[a2..a3] == s.s2 && bytes[a3..a4] == s.s3 && bytes[a4..] == s.s4
  {
    var p := |s.s1| + |s.s2|;
    PartsOf(s.s1, s.s2, s.s3, s.s4);
    Shifted(bytes, at, 0, |s.s1|);
    Shifted(bytes, at, |s.s1|, p);
    Shifted(bytes, at, p, p + |s.s3|);
    Shifted(bytes, at, p + |s.s3|, |bytes| - at);
  }

  lemma PartsOf(a: seq<byte>, b: seq<byte>, c: seq<byte>, d: seq<byte>)
    ensures var x := a + b + c + d; var p := |a| + |b|; var q := p + |c|;
      x[0..|a|] == a && x[|a|..p] == b && x[p..q] == c && x[q..q + |d|] == d
  {
  }

  lemma Shifted(bytes: seq<byte>, at: nat, i: nat, j: nat)
    requires i <= j && at + j <= |bytes|
    ensures bytes[at..][i..j] == bytes[at + i..at + j]
  {
  }
}
