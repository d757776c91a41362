/** The encoder's literals sections: Huffman tables from a histogram, the section
    headers, and the choice between a new table, the last one and raw bytes.
    Whatever is chosen, the decoder reads the literals back. */
module LiteralsEncode {
  import opened Arith
  import opened Wrappers
  import opened Huffman
  import opened HuffmanWeights
  import opened HuffmanCode
  import opened HuffmanFour
  import opened HuffmanEncode
  import opened BlockFormat
  import opened BlockHeaders

  // ----- tables -----

  /** The encoder's codes and the description that tells the decoder of them. */
  datatype HufCoder = HufCoder(table: EncodeTable, description: seq<byte>)

  /** Descriptions of explicit weights, all but the last; the writer is given. */
  type Describe = seq<nat> -> Option<seq<byte>>

  function Front(weights: seq<nat>): seq<nat>
    requires |weights| > 0
  {
    weights[..|weights| - 1]
  }

  /** The last weight, which is not written, is not zero: a zero could not be told
      from the weight that doubles the code. */
  predicate EndsInCode(weights: seq<nat>) {
    |weights| > 0 && weights[|weights| - 1] > 0
  }

  /** The decoder makes of a description the table of its weights. */
  ghost predicate Agrees(c: WeightCode, describe: Describe) {
    forall weights, log :: Complete(weights, log) && EndsInCode(weights) && describe(Front(weights)).Some? ==>
      Announced(c, describe(Front(weights)).value, weights, log)
  }

  ghost predicate Announced(c: WeightCode, description: seq<byte>, weights: seq<nat>, log: nat)
    requires Complete(weights, log)
  {
    && c.parse(description).Ok? && c.parse(description).value.1 == |description|
    && c.build(c.parse(description).value.0) == Ok(CanonicalTable(weights, log))
  }

  method ByteHistogram(data: seq<byte>) returns (freqs: seq<nat>)
    ensures |freqs| == 256 && forall i :: 0 <= i < |data| ==> freqs[data[i]] > 0
  {
    freqs := seq(256, _ => 0);
    for i := 0 to |data|
      invariant |freqs| == 256 && forall j :: 0 <= j < i ==> freqs[data[j]] > 0
    {
      freqs := freqs[data[i] := freqs[data[i]] + 1];
    }
  }

  /** One more than the last symbol that occurs. */
  method SymbolCount(freqs: seq<nat>) returns (n: nat)
    ensures n <= |freqs| && (n > 0 ==> freqs[n - 1] > 0) && forall s :: n <= s < |freqs| ==> freqs[s] == 0
  {
    n := |freqs|;
    while n > 0 && freqs[n - 1] == 0
      invariant n <= |freqs| && forall s :: n <= s < |freqs| ==> freqs[s] == 0
    {
      n := n - 1;
    }
  }

  function Halve(counts: seq<nat>): (r: seq<nat>)
    ensures |r| == |counts| && forall i :: 0 <= i < |r| ==> r[i] == (counts[i] + 1) / 2
  {
    seq(|counts|, i requires 0 <= i < |counts| => (counts[i] + 1) / 2)
  }

  lemma {:induction false} HalveShrinks(counts: seq<nat>, r: seq<nat>)
    requires |r| == |counts| && forall i :: 0 <= i < |r| ==> r[i] == (counts[i] + 1) / 2
    ensures TotalCount(r) <= TotalCount(counts)
    ensures (exists i :: 0 <= i < |counts| && counts[i] > 1) ==> TotalCount(r) < TotalCount(counts)
  {
    if |counts| > 0 {
      HalveShrinks(counts[1..], r[1..]);
      if i :| 0 <= i < |counts| && counts[i] > 1 {
        if i > 0 {
          assert counts[1..][i - 1] > 1;
        }
      }
    }
  }

  /** The table is the one its description announces, with a code for every byte
      that occurs. */
  ghost predicate IsCoder(h: HufCoder, weights: seq<nat>, describe: Describe, freqs: seq<nat>) {
    && Complete(weights, h.table.log) && EndsInCode(weights) && CodesFor(h.table, weights, |weights|)
    && describe(Front(weights)) == Some(h.description)
    && forall s :: 0 <= s < |freqs| && freqs[s] > 0 ==> s < |weights| && weights[s] > 0
  }

  /** A table for counted bytes. The counts are halved until the weights can be
      described; it gives up when every count is one. */
  method FromHistogram(freqs: seq<nat>, describe: Describe) returns (r: Option<HufCoder>, ghost weights: seq<nat>)
    requires |freqs| == 256
    ensures r.Some? ==> IsCoder(r.value, weights, describe, freqs)
  {
    hide Complete, Rank, CodesFor;
    weights := [];
    var n := SymbolCount(freqs);
    var counts: seq<nat> := freqs[..n];
    while true
      invariant |counts| == n && forall s :: 0 <= s < n ==> (counts[s] > 0 <==> freqs[s] > 0)
      decreases TotalCount(counts)
    {
      var w := ComputeWeights(counts);
      if w.None? {
        return None, weights;
      }
      assert n > 0 by { SomeCounted(counts); }
      var (ws, log) := w.value;
      weights := ws;
      var description := describe(Front(ws));
      if description.Some? {
        WeightsBounded(ws, log);
        var e := BuildEncodeCodes(ws, log);
        return Some(HufCoder(e, description.value)), weights;
      }
      if forall s :: 0 <= s < n ==> counts[s] <= 1 {
        return None, weights;
      }
      HalveShrinks(counts, Halve(counts));
      counts := Halve(counts);
    }
  }

  lemma SomeCounted(counts: seq<nat>)
    requires Rank(counts, |counts|) >= 2
    ensures |counts| > 0
  {
  }

  lemma WeightsBounded(weights: seq<nat>, log: nat)
    requires Complete(weights, log)
    ensures |weights| <= 256 && log >= 1 && forall s :: 0 <= s < |weights| ==> weights[s] <= log
  {
  }

  /** The decoder's table for a coder. */
  lemma CoderLinked(c: WeightCode, h: HufCoder, weights: seq<nat>, describe: Describe, data: seq<byte>, freqs: seq<nat>)
    requires Agrees(c, describe) && IsCoder(h, weights, describe, freqs)
    requires |freqs| == 256 && forall i :: 0 <= i < |data| ==> freqs[data[i]] > 0
    ensures Complete(weights, h.table.log) && Announced(c, h.description, weights, h.table.log)
    ensures Linked(h.table, CanonicalTable(weights, h.table.log)) && CanEncode(h.table, data)
  {
    hide Complete, CodesFor, CanonicalTable, Points;
    CodesLinked(h.table, weights, h.table.log);
  }

  // ----- section headers -----

  lemma FourDigits(x: nat)
    requires x < 0x1_0000_0000
    ensures Digit(x, 0) as nat + 256 * Digit(x, 1) as nat + 65536 * Digit(x, 2) as nat + 16777216 * Digit(x, 3) as nat == x
  {
    assert Digit(x, 1) == Digit(x / 256, 0) && Digit(x, 2) == Digit(x / 256, 1) && Digit(x, 3) == Digit(x / 256, 2);
    ThreeDigits(x / 256);
  }

  /** Type, size format, then `both` in twenty to thirty-six bits. */
  function SizeHeader(kind: nat, format: nat, both: nat, n: nat): (h: seq<byte>)
    requires kind < 4 && format < 4 && 3 <= n <= 5
    ensures |h| == n
  {
    [kind + 4 * format + 16 * (both % 16), Digit(both / 16, 0), Digit(both / 16, 1)]
    + (if n >= 4 then [Digit(both / 16, 2)] else []) + (if n == 5 then [Digit(both / 16, 3)] else [])
  }

  lemma FirstByte(kind: nat, format: nat, low: nat)
    requires kind < 4 && format < 4 && low < 16
    ensures var b := kind + 4 * format + 16 * low; b < 256 && b % 4 == kind && b / 4 % 4 == format && b / 16 == low
  {
    assert (kind + 4 * format + 16 * low) / 4 == format + 4 * low;
  }

  lemma SizeHeaderReads(kind: nat, format: nat, both: nat, n: nat, data: seq<byte>)
    requires kind < 4 && format < 4 && 3 <= n <= 5 && SizeHeader(kind, format, both, n) <= data
    requires both / 16 < (match n case 3 => 65536 case 4 => 0x100_0000 case _ => 0x1_0000_0000)
    ensures data[0] % 4 == kind && data[0] / 4 % 4 == format && HeaderBits(data, n) == both
  {
    hide Digit;
    var h := SizeHeader(kind, format, both, n);
    assert data[0] == h[0] && data[1] == h[1] && data[2] == h[2];
    FirstByte(kind, format, both % 16);
    if n == 3 {
      TwoDigits(both / 16);
    } else if n == 4 {
      assert data[3] == h[3];
      ThreeDigits(both / 16);
    } else {
      assert data[3] == h[3] && data[4] == h[4];
      FourDigits(both / 16);
    }
  }

  /** Both sizes, in the shortest format that holds them. */
  function HufHeader(kind: nat, regen: nat, comp: nat, four: bool): (h: seq<byte>)
    requires kind < 4
    ensures 3 <= |h| <= 5
  {
    if regen <= 1023 && comp <= 1023 then SizeHeader(kind, if four then 1 else 0, regen + 1024 * comp, 3)
    else if regen <= 16383 && comp <= 16383 then SizeHeader(kind, 2, regen + 16384 * comp, 4)
    else SizeHeader(kind, 3, regen + 262144 * comp, 5)
  }

  /** Read back, whatever follows, when the longer formats are used for four
      streams only. */
  lemma HufHeaderRoundTrip(kind: nat, regen: nat, comp: nat, four: bool, data: seq<byte>)
    requires kind < 4 && regen < 262144 && comp < 262144 && HufHeader(kind, regen, comp, four) <= data
    requires !four ==> regen <= 1023 && comp <= 1023
    ensures data[0] % 4 == kind
    ensures CompressedHeader(data)
      == Some(LitHeader(regen, comp, if four then 4 else 1, |HufHeader(kind, regen, comp, four)|))
  {
    hide SizeHeader, HeaderBits;
    if regen <= 1023 && comp <= 1023 {
      SizeHeaderReads(kind, if four then 1 else 0, regen + 1024 * comp, 3, data);
    } else if regen <= 16383 && comp <= 16383 {
      SizeHeaderReads(kind, 2, regen + 16384 * comp, 4, data);
    } else {
      SizeHeaderReads(kind, 3, regen + 262144 * comp, 5, data);
    }
  }

  // ----- sections -----

  /** The decoder reads the section as these literals, whatever follows it. */
  ghost predicate ReadsBack(c: WeightCode, section: seq<byte>, lits: seq<byte>, huf: Option<HufTable>, after: Option<HufTable>)
    requires Sound(c) && (huf.Some? ==> UsableTable(huf.value))
  {
    forall rest: seq<byte> :: LiteralsOf(c, section + rest, huf) == Ok(LitResult(|section|, lits, after))
  }

  lemma RawReadsBack(c: WeightCode, lits: seq<byte>, huf: Option<HufTable>)
    requires Sound(c) && (huf.Some? ==> UsableTable(huf.value)) && |lits| <= MAX_BLOCK_SIZE
    ensures ReadsBack(c, RawLiteralsHeader(|lits|) + lits, lits, huf, huf)
  {
    hide Sound, UsableTable, PlainLiterals, RawLiteralsHeader;
    forall rest: seq<byte> ensures LiteralsOf(c, RawLiteralsHeader(|lits|) + lits + rest, huf)
        == Ok(LitResult(|RawLiteralsHeader(|lits|) + lits|, lits, huf)) {
      RawLiteralsRoundTrip(lits, rest);
    }
  }

  /** A Huffman section: a header, and a body whose table and streams are read. */
  lemma CodedReadsBack(c: WeightCode, treeless: bool, body: seq<byte>, four: bool, lits: seq<byte>, t: HufTable, n: nat,
                       huf: Option<HufTable>)
    requires Sound(c) && (huf.Some? ==> UsableTable(huf.value))
    requires |body| < |lits| <= MAX_BLOCK_SIZE && four == (|lits| >= 1024)
    requires SectionTable(c, treeless, body, huf) == Ok((t, n)) && n <= |body| && t.Valid()
    requires HuffmanLiterals(t, if four then 4 else 1, body[n..], |lits|) == Some(lits)
    ensures ReadsBack(c, HufHeader(if treeless then 3 else 2, |lits|, |body|, four) + body, lits, huf, Some(t))
  {
    hide Sound, UsableTable, CompressedHeader, HufHeader, HuffmanLiterals, SectionTable;
    var kind := if treeless then 3 else 2;
    var h := HufHeader(kind, |lits|, |body|, four);
    forall rest: seq<byte> ensures LiteralsOf(c, h + body + rest, huf) == Ok(LitResult(|h + body|, lits, Some(t))) {
      var data := h + body + rest;
      assert data == h + (body + rest);
      HufHeaderRoundTrip(kind, |lits|, |body|, four, data);
      assert data[|h|..|h| + |body|] == body;
    }
  }

  /** The encoder's last table, if it has one, is the decoder's. */
  ghost predicate InStep(prev: Option<HufCoder>, huf: Option<HufTable>) {
    prev.Some? ==> huf.Some? && Linked(prev.value.table, huf.value)
  }

  /** One stream, or four. */
  method EncodeStreams(e: EncodeTable, lits: seq<byte>, ghost t: HufTable) returns (bytes: seq<byte>)
    requires Linked(e, t) && CanEncode(e, lits) && |lits| <= MAX_BLOCK_SIZE
    ensures HuffmanLiterals(t, if |lits| >= 1024 then 4 else 1, bytes, |lits|) == Some(lits)
  {
    hide Points, StreamSymbols, FourSymbols, IsStream;
    LinkedEncodes(e, t, lits);
    hide Linked, Encodable;
    if |lits| >= 1024 {
      ghost var s;
      bytes, s := Encode4Streams(e, lits);
      FourRoundTrip(e, t, lits, bytes, s);
    } else {
      bytes := EncodeSingleStream(e, lits, []);
      StreamRoundTrip(e, t, lits, bytes);
    }
  }

  /** What the estimates favour. */
  datatype Plan = PlanRaw | PlanReuse | PlanFresh

  /** The literals section: the last table, a new table or raw bytes. Huffman is
      used only where it is smaller, and otherwise the last table is forgotten. */
  method EncodeLiteralsSection(lits: seq<byte>, prev: Option<HufCoder>, plan: Plan, describe: Describe,
                               ghost c: WeightCode, ghost huf: Option<HufTable>)
    returns (section: seq<byte>, prev': Option<HufCoder>, ghost after: Option<HufTable>)
    requires Sound(c) && Agrees(c, describe) && InStep(prev, huf) && (huf.Some? ==> UsableTable(huf.value))
    requires |lits| <= MAX_BLOCK_SIZE
    ensures ReadsBack(c, section, lits, huf, after) && InStep(prev', after) && (after.Some? ==> UsableTable(after.value))
    ensures |section| > 0
  {
    hide Sound, Agrees, UsableTable, ReadsBack, Linked, CanEncode, HuffmanLiterals;
    match plan {
      case PlanReuse =>
        if prev.Some? && CanEncodeAll(prev.value.table, lits) {
          section := EncodeReuse(lits, prev.value, c, huf);
          if |section| > 0 {
            return section, prev, huf;
          }
        }
      case PlanFresh =>
        var made;
        section, made, after := EncodeFresh(lits, describe, c, huf);
        if |section| > 0 {
          return section, Some(made), after;
        }
      case PlanRaw =>
    }
    RawReadsBack(c, lits, huf);
    return RawLiteralsHeader(|lits|) + lits, None, huf;
  }

  predicate CanEncodeAll(e: EncodeTable, data: seq<byte>) {
    |e.bits| == 256 && CanEncode(e, data)
  }

  /** With the last table: nothing, unless it is smaller than the literals. */
  method EncodeReuse(lits: seq<byte>, h: HufCoder, ghost c: WeightCode, ghost huf: Option<HufTable>) returns (section: seq<byte>)
    requires Sound(c) && huf.Some? && UsableTable(huf.value) && Linked(h.table, huf.value)
    requires CanEncodeAll(h.table, lits) && |lits| <= MAX_BLOCK_SIZE
    ensures |section| > 0 ==> ReadsBack(c, section, lits, huf, huf)
  {
    hide Sound, UsableTable, ReadsBack, Linked, CanEncode, HuffmanLiterals, HufHeader;
    assert huf.value.Valid() by { LinkedValid(h.table, huf.value); }
    var body := EncodeStreams(h.table, lits, huf.value);
    if |body| >= |lits| {
      return [];
    }
    assert body[0..] == body;
    CodedReadsBack(c, true, body, |lits| >= 1024, lits, huf.value, 0, huf);
    section := HufHeader(3, |lits|, |body|, |lits| >= 1024) + body;
  }

  lemma LinkedValid(e: EncodeTable, t: HufTable)
    requires Linked(e, t)
    ensures t.Valid()
  {
  }

  /** With a table of the literals' own. */
  method EncodeFresh(lits: seq<byte>, describe: Describe, ghost c: WeightCode, ghost huf: Option<HufTable>)
    returns (section: seq<byte>, h: HufCoder, ghost after: Option<HufTable>)
    requires Sound(c) && Agrees(c, describe) && (huf.Some? ==> UsableTable(huf.value)) && |lits| <= MAX_BLOCK_SIZE
    ensures |section| > 0 ==> ReadsBack(c, section, lits, huf, after) && InStep(Some(h), after)
    ensures |section| > 0 ==> after.Some? && UsableTable(after.value)
  {
    hide Agrees, ReadsBack, Linked, CanEncode, HuffmanLiterals, HufHeader, IsCoder, Complete, Announced;
    section, after := [], None;
    h := HufCoder(EncodeTable([], [], 0), []);
    var freqs := ByteHistogram(lits);
    ghost var weights;
    var made;
    made, weights := FromHistogram(freqs, describe);
    if made.None? {
      return;
    }
    h := made.value;
    CoderLinked(c, h, weights, describe, lits, freqs);
    ghost var t := CanonicalTable(weights, h.table.log);
    LinkedValid(h.table, t);
    var streams := EncodeStreams(h.table, lits, t);
    var body := h.description + streams;
    if |body| >= |lits| {
      return;
    }
    FreshTable(c, h, weights, streams, t, huf);
    assert body[|h.description|..] == streams;
    CodedReadsBack(c, false, body, |lits| >= 1024, lits, t, |h.description|, huf);
    section, after := HufHeader(2, |lits|, |body|, |lits| >= 1024) + body, Some(t);
  }

  lemma FreshTable(c: WeightCode, h: HufCoder, weights: seq<nat>, streams: seq<byte>, t: HufTable, huf: Option<HufTable>)
    requires Sound(c) && (huf.Some? ==> UsableTable(huf.value)) && Complete(weights, h.table.log)
    requires Announced(c, h.description, weights, h.table.log) && t == CanonicalTable(weights, h.table.log)
    ensures SectionTable(c, false, h.description + streams, huf) == Ok((t, |h.description|))
    ensures UsableTable(t)
  {
    hide Complete, CanonicalTable, UsableTable;
    var body := h.description + streams;
    assert body[..|h.description|] == h.description == h.description[..|h.description|];
    ParseOk(c, h.description);
    SameParse(c, h.description, body);
  }
}
