/** What a compressed block means (section 3.1.1.3 of RFC 8878): its literals, its
    tables and its sequences, without any cache. */
module BlockFormat {
  import opened Arith
  import opened Wrappers
  import Bits
  import opened FseSpread
  import opened Huffman
  import opened HuffmanFour
  import opened HuffmanStream
  import opened SeqCodes
  import opened SeqStream
  import opened RepOffsets
  import opened FseTable
  import opened FseDescription
  import opened DescriptionCodec
  import opened TableSection
  import opened SectionDecode

  const MAX_BLOCK_SIZE: nat := 131072

  // ----- literals -----

  /** The Huffman tree description's parser and the table builder, which this
      model takes as given. */
  datatype WeightCode = WeightCode(
    parse: seq<byte> -> Result<(seq<nat>, nat), DecodeError>,
    build: seq<nat> -> Result<HufTable, DecodeError>)

  /** A description is parsed from its own bytes only. */
  ghost predicate ParsesLocally(c: WeightCode) {
    forall a, b :: c.parse(a).Ok? && StartsWith(b, a, c.parse(a).value.1) ==> c.parse(b) == c.parse(a)
  }

  predicate StartsWith(b: seq<byte>, a: seq<byte>, n: nat) {
    n <= |a| && n <= |b| && b[..n] == a[..n]
  }

  ghost predicate UsableTable(t: HufTable) {
    t.Valid() && PrefixConsistent(t)
  }

  ghost predicate Sound(c: WeightCode) {
    && ParsesLocally(c)
    && (forall a :: c.parse(a).Ok? ==> c.parse(a).value.1 <= |a|)
    && (forall w :: c.build(w).Ok? ==> UsableTable(c.build(w).value))
  }

  lemma SameParse(c: WeightCode, a: seq<byte>, b: seq<byte>)
    requires Sound(c) && c.parse(a).Ok? && StartsWith(b, a, c.parse(a).value.1)
    ensures c.parse(b) == c.parse(a)
  {
  }

  lemma ParseOk(c: WeightCode, a: seq<byte>)
    requires Sound(c) && c.parse(a).Ok?
    ensures c.parse(a).value.1 <= |a|
    ensures c.build(c.parse(a).value.0).Ok? ==> UsableTable(c.build(c.parse(a).value.0).value)
  {
  }

  /** Sizes in a literals header, and the header's own. */
  datatype LitHeader = LitHeader(regen: nat, comp: nat, streams: nat, size: nat)

  function RawHeader(data: seq<byte>): (h: Option<LitHeader>)
    requires |data| > 0
    ensures h.Some? ==> 1 <= h.value.size <= |data|
  {
    match data[0] / 4 % 4
    case 1 =>
      if |data| < 2 then None else Some(LitHeader(data[0] as nat / 16 + 16 * data[1] as nat, 0, 0, 2))
    case 3 =>
      if |data| < 3 then None
      else Some(LitHeader(data[0] as nat / 16 + 16 * data[1] as nat + 4096 * data[2] as nat, 0, 0, 3))
    case _ => Some(LitHeader(data[0] as nat / 8, 0, 0, 1))
  }

  /** Four bits of the first byte and `n - 1` bytes. */
  function HeaderBits(data: seq<byte>, n: nat): nat
    requires 3 <= n <= 5 && n <= |data|
  {
    data[0] as nat / 16 + 16 * data[1] as nat + 4096 * data[2] as nat
    + (if n >= 4 then 1048576 * data[3] as nat else 0) + (if n == 5 then 268435456 * data[4] as nat else 0)
  }

  function CompressedHeader(data: seq<byte>): (h: Option<LitHeader>)
    requires |data| > 0
    ensures h.Some? ==> 1 <= h.value.size <= |data|
  {
    match data[0] / 4 % 4
    case 2 =>
      if |data| < 4 then None
      else Some(LitHeader(HeaderBits(data, 4) % 16384, HeaderBits(data, 4) / 16384, 4, 4))
    case 3 =>
      if |data| < 5 then None
      else Some(LitHeader(HeaderBits(data, 5) % 262144, HeaderBits(data, 5) / 262144, 4, 5))
    case format =>
      if |data| < 3 then None
      else Some(LitHeader(HeaderBits(data, 3) % 1024, HeaderBits(data, 3) / 1024, if format == 0 then 1 else 4, 3))
  }

  function Fill(b: byte, n: nat): (s: seq<byte>)
    ensures |s| == n
  {
    seq(n, _ => b)
  }

  /** A literals section: its size, the literals, and the Huffman table in force
      after it. */
  datatype LitResult = LitResult(consumed: nat, lits: seq<byte>, huf: Option<HufTable>)

  function HuffmanLiterals(t: HufTable, streams: nat, body: seq<byte>, n: nat): Option<seq<byte>>
    requires t.Valid()
  {
    if streams == 1 then StreamSymbols(t, body, n) else FourSymbols(t, body, n)
  }

  /** The table of a compressed section, and its description's size. */
  ghost function SectionTable(c: WeightCode, treeless: bool, body: seq<byte>, huf: Option<HufTable>)
    : (r: Result<(HufTable, nat), DecodeError>)
    requires Sound(c) && (huf.Some? ==> UsableTable(huf.value))
    ensures r.Ok? ==> UsableTable(r.value.0) && r.value.1 <= |body|
  {
    if treeless then
      if huf.Some? then Ok((huf.value, 0)) else Err(CorruptLiterals)
    else
      match c.parse(body)
      case Err(e) => Err(e)
      case Ok((weights, n)) =>
        match c.build(weights)
        case Err(e) => Err(e)
        case Ok(t) => Ok((t, n))
  }

  /** Raw and RLE literals. */
  function PlainLiterals(data: seq<byte>): (r: Result<(nat, seq<byte>), DecodeError>)
    requires |data| > 0
    ensures r.Ok? ==> r.value.0 <= |data|
  {
    match RawHeader(data)
    case None => Err(CorruptLiterals)
    case Some(h) =>
      var body := if data[0] % 4 == 0 then h.regen else 1;
      if h.regen > MAX_BLOCK_SIZE || |data| < h.size + body then Err(CorruptLiterals)
      else if data[0] % 4 == 0 then Ok((h.size + body, data[h.size..h.size + body]))
      else Ok((h.size + body, Fill(data[h.size], h.regen)))
  }

  ghost function CodedLiterals(c: WeightCode, data: seq<byte>, huf: Option<HufTable>): (r: Result<LitResult, DecodeError>)
    requires |data| > 0 && Sound(c) && (huf.Some? ==> UsableTable(huf.value))
    ensures r.Ok? ==> r.value.consumed <= |data| && (r.value.huf.Some? ==> UsableTable(r.value.huf.value))
  {
    match CompressedHeader(data)
    case None => Err(CorruptLiterals)
    case Some(h) =>
      if h.regen > MAX_BLOCK_SIZE || |data| < h.size + h.comp then Err(CorruptLiterals)
      else
        var body := data[h.size..h.size + h.comp];
        match SectionTable(c, data[0] % 4 == 3, body, huf)
        case Err(e) => Err(e)
        case Ok((t, n)) =>
          match HuffmanLiterals(t, h.streams, body[n..], h.regen)
          case None => Err(BadHuffmanStream)
          case Some(lits) => Ok(LitResult(h.size + h.comp, lits, Some(t)))
  }

  predicate HeaderFails(data: seq<byte>)
    requires |data| > 0
  {
    var h := CompressedHeader(data);
    h.None? || h.value.regen > MAX_BLOCK_SIZE || |data| < h.value.size + h.value.comp
  }

  /** The same, case by case. */
  lemma CodedCases(c: WeightCode, data: seq<byte>, huf: Option<HufTable>)
    requires |data| > 0 && Sound(c) && (huf.Some? ==> UsableTable(huf.value))
    ensures HeaderFails(data) ==> CodedLiterals(c, data, huf) == Err(CorruptLiterals)
    ensures !HeaderFails(data) ==>
      var h := CompressedHeader(data).value;
      var body := data[h.size..h.size + h.comp];
      match SectionTable(c, data[0] % 4 == 3, body, huf)
      case Err(e) => CodedLiterals(c, data, huf) == Err(e)
      case Ok((t, n)) =>
        CodedLiterals(c, data, huf) == match HuffmanLiterals(t, h.streams, body[n..], h.regen)
          case None => Err(BadHuffmanStream)
          case Some(lits) => Ok(LitResult(h.size + h.comp, lits, Some(t)))
  {
    hide Sound, UsableTable, HuffmanLiterals, SectionTable;
  }

  ghost function LiteralsOf(c: WeightCode, data: seq<byte>, huf: Option<HufTable>): (r: Result<LitResult, DecodeError>)
    requires Sound(c) && (huf.Some? ==> UsableTable(huf.value))
    ensures r.Ok? ==> r.value.consumed <= |data| && (r.value.huf.Some? ==> UsableTable(r.value.huf.value))
  {
    if |data| == 0 then Err(CorruptLiterals)
    else if data[0] % 4 < 2 then
      match PlainLiterals(data)
      case Err(e) => Err(e)
      case Ok((n, lits)) => Ok(LitResult(n, lits, huf))
    else CodedLiterals(c, data, huf)
  }

  // ----- raw and repeated literals, byte by byte -----

  /** What a section of `n` raw or repeated literals behind a header of `size` bytes
      decodes to: the bytes that follow, or `n` times the one that does. */
  predicate PlainSection(r: Result<LitResult, DecodeError>, data: seq<byte>, n: nat, size: nat, huf: Option<HufTable>)
    requires |data| > 0
  {
    var body := if data[0] % 4 == 0 then n else 1;
    if n > 131072 || size + body > |data| then r == Err(CorruptLiterals)
    else
      && r.Ok? && r.value.consumed == size + body && r.value.huf == huf && |r.value.lits| == n
      && forall i :: 0 <= i < n ==> r.value.lits[i] == data[if data[0] % 4 == 0 then size + i else size]
  }

  /** By the size format in bits 2 and 3 of the first byte: five bits of it, or four
      and one or two more bytes. */
  lemma PlainSections(c: WeightCode, data: seq<byte>, huf: Option<HufTable>)
    requires Sound(c) && (huf.Some? ==> UsableTable(huf.value)) && |data| > 0 && data[0] % 4 < 2
    ensures data[0] / 4 % 2 == 0 ==> PlainSection(LiteralsOf(c, data, huf), data, data[0] as nat / 8, 1, huf)
    ensures data[0] / 4 % 4 == 1 ==>
      if |data| < 2 then LiteralsOf(c, data, huf) == Err(CorruptLiterals)
      else PlainSection(LiteralsOf(c, data, huf), data, data[0] as nat / 16 + 16 * data[1] as nat, 2, huf)
    ensures data[0] / 4 % 4 == 3 ==>
      if |data| < 3 then LiteralsOf(c, data, huf) == Err(CorruptLiterals)
      else
        PlainSection(LiteralsOf(c, data, huf), data, data[0] as nat / 16 + 16 * data[1] as nat + 4096 * data[2] as nat, 3, huf)
  {
    hide Sound, UsableTable, CodedLiterals;
  }

  // ----- sequences -----

  /** The number of sequences, and the size of the field. */
  function SequenceCount(data: seq<byte>): (r: Option<(nat, nat)>)
    ensures r.Some? ==> r.value.1 <= |data| && r.value.0 < 98304
  {
    if |data| == 0 then None
    else if data[0] < 128 then Some((data[0] as nat, 1))
    else if data[0] < 255 then
      if |data| < 2 then None else Some((256 * (data[0] as nat - 128) + data[1] as nat, 2))
    else
      if |data| < 3 then None else Some((data[1] as nat + 256 * data[2] as nat + 0x7F00, 3))
  }

  /** A table that decoding can index with the states it reads. */
  ghost predicate FieldReady(k: Kind, t: FieldTable) {
    && TableReady(t.rows, t.log, MaxLog(k), MaxExtra(k))
    && (k == OffsetCode ==> forall i :: 0 <= i < |t.rows| ==> t.rows[i].extra.base > 0)
  }

  ghost predicate PrevReady(prev: Three<Option<FieldTable>>) {
    && (prev.ll.Some? ==> FieldReady(LiteralLength, prev.ll.value))
    && (prev.of.Some? ==> FieldReady(OffsetCode, prev.of.value))
    && (prev.ml.Some? ==> FieldReady(MatchLength, prev.ml.value))
  }

  function SectionTables(t: Three<FieldTable>): SeqTables {
    SeqTables(t.ll.rows, t.of.rows, t.ml.rows, t.ll.log, t.of.log, t.ml.log)
  }

  /** What a frame keeps from block to block. */
  datatype EntropyState = EntropyState(huf: Option<HufTable>, prev: Three<Option<FieldTable>>, reps: Reps)

  ghost predicate StateReady(st: EntropyState) {
    (st.huf.Some? ==> UsableTable(st.huf.value)) && PrevReady(st.prev)
  }

  /** Where a frame's blocks go: from `start` on, at most `limit` bytes in all,
      with `history` before them. */
  datatype Frame = Frame(start: nat, limit: nat, history: seq<byte>)

  ghost predicate InFrame(f: Frame, output: seq<byte>) {
    f.start <= |output| && |output| - f.start <= f.limit
  }

  // ----- tables of a section are ready -----

  lemma PromotedReady(k: Kind, syms: seq<nat>, log: nat)
    requires |syms| == Pow2(log) && log <= MaxLog(k) && forall i :: 0 <= i < |syms| ==> syms[i] <= MaxCode(k)
    ensures FieldReady(k, Promoted(k, syms, log))
  {
    hide Pow2, ExtraOf;
    var t := Promoted(k, syms, log);
    forall i: nat | i < |t.rows|
      ensures t.rows[i].bits <= log && t.rows[i].base + Pow2(t.rows[i].bits) <= |t.rows|
      ensures t.rows[i].extra.bits <= MaxExtra(k)
      ensures k == OffsetCode ==> t.rows[i].extra.base > 0
    {
      ExtraBounds(k, syms[i]);
      assert t.rows[i] == EntryOf(k, syms, log, i);
    }
  }

  lemma TableOfReady(k: Kind, dist: seq<int>, log: nat)
    requires Described(k, dist, log) && log <= MaxLog(k)
    ensures FieldReady(k, TableOf(k, dist, log))
  {
    hide SpreadOf, Promoted, FieldReady;
    SpreadInRange(k, dist, log);
    PromotedReady(k, SpreadOf(dist, log), log);
  }

  lemma PredefinedReady(k: Kind)
    ensures FieldReady(k, Predefined(k))
  {
    hide TableOf, FieldReady, DefaultDist;
    DefaultFills(k);
    TableOfReady(k, DefaultDist(k), DefaultLog(k));
  }

  lemma SingleReady(k: Kind, code: nat)
    requires code <= MaxCode(k)
    ensures FieldReady(k, TableSection.Single(k, code))
  {
    ExtraBounds(k, code);
  }

  lemma FieldSectionReady(k: Kind, mode: nat, data: seq<byte>, pos: nat, prev: Option<FieldTable>)
    requires pos <= |data| && (prev.Some? ==> FieldReady(k, prev.value))
    requires FieldSection(k, mode, data, pos, prev).Ok?
    ensures FieldReady(k, FieldSection(k, mode, data, pos, prev).value.0)
  {
    hide FieldReady, Predefined, TableOf, HasWholeCell, Parse;
    if mode == 0 {
      PredefinedReady(k);
    } else if mode == 1 {
      SingleReady(k, data[pos]);
    } else if mode == 2 {
      var v, left := Bits.LE(data[pos..]), 8 * (|data| - pos);
      var d := Parse(v, left, MaxCode(k)).value;
      DescriptionFills(v, left, MaxCode(k));
      ParseLeft(v, left, MaxCode(k));
      TableOfReady(k, d.dist, d.log);
    }
  }

  lemma SectionReady(data: seq<byte>, prev: Three<Option<FieldTable>>)
    requires PrevReady(prev) && Section(data, prev).Ok?
    ensures var t := Section(data, prev).value.0;
      && FieldReady(LiteralLength, t.ll) && FieldReady(OffsetCode, t.of) && FieldReady(MatchLength, t.ml)
      && TablesReady(SectionTables(t))
  {
    var t := Section(data, prev).value.0;
    SectionFieldsReady(data, prev);
    assert MaxExtra(LiteralLength) == 16 && MaxExtra(MatchLength) == 16 && MaxExtra(OffsetCode) == 31;
  }

  lemma SectionFieldsReady(data: seq<byte>, prev: Three<Option<FieldTable>>)
    requires PrevReady(prev) && Section(data, prev).Ok?
    ensures var t := Section(data, prev).value.0;
      FieldReady(LiteralLength, t.ll) && FieldReady(OffsetCode, t.of) && FieldReady(MatchLength, t.ml)
  {
    hide FieldSection, FieldReady, LlMode, OfMode, MlMode;
    var x := data[1..];
    var (ll, p1) := FieldSection(LiteralLength, LlMode(data[0]), x, 0, prev.ll).value;
    var (of, p2) := FieldSection(OffsetCode, OfMode(data[0]), x, p1, prev.of).value;
    FieldSectionReady(LiteralLength, LlMode(data[0]), x, 0, prev.ll);
    FieldSectionReady(OffsetCode, OfMode(data[0]), x, p1, prev.of);
    FieldSectionReady(MatchLength, MlMode(data[0]), x, p2, prev.ml);
  }

  // ----- the block -----

  function AllSome(t: Three<FieldTable>): Three<Option<FieldTable>> {
    Three(Some(t.ll), Some(t.of), Some(t.ml))
  }

  /** A block without sequences is its literals. */
  function LiteralsOnly(lits: seq<byte>, f: Frame, output: seq<byte>): Result<seq<byte>, DecodeError>
    requires InFrame(f, output)
  {
    if |output| - f.start + |lits| > f.limit then Err(OutputTooSmall) else Ok(output + lits)
  }

  /** A block's sequences part, after its literals: the output and the state. */
  ghost function SequencesPart(data: seq<byte>, lits: seq<byte>, f: Frame, output: seq<byte>, st: EntropyState)
    : (r: Result<(seq<byte>, EntropyState), DecodeError>)
    requires InFrame(f, output) && PrevReady(st.prev)
  {
    match SequenceCount(data)
    case None => Err(CorruptSequences)
    case Some((n, size)) =>
      if n == 0 then
        match LiteralsOnly(lits, f, output)
        case Err(e) => Err(e)
        case Ok(out) => Ok((out, st))
      else
        match Section(data[size..], st.prev)
        case Err(e) => Err(e)
        case Ok((t, m)) =>
          SectionReady(data[size..], st.prev);
          var to := Target(output, f.start, Min(f.limit - (|output| - f.start), MAX_BLOCK_SIZE), f.history);
          match SectionResult(data[size..][m..], SectionTables(t), n, to, lits, st.reps)
          case Err(e) => Err(e)
          case Ok((out, reps)) => Ok((out, EntropyState(st.huf, AllSome(t), reps)))
  }

  /** A compressed block appended to the output. */
  ghost function CompressedBlock(c: WeightCode, data: seq<byte>, f: Frame, output: seq<byte>, st: EntropyState)
    : (r: Result<(seq<byte>, EntropyState), DecodeError>)
    requires Sound(c) && InFrame(f, output) && StateReady(st)
  {
    match LiteralsOf(c, data, st.huf)
    case Err(e) => Err(e)
    case Ok(l) =>
      var st' := st.(huf := l.huf);
      if l.consumed == |data| then
        match LiteralsOnly(l.lits, f, output)
        case Err(e) => Err(e)
        case Ok(out) => Ok((out, st'))
      else SequencesPart(data[l.consumed..], l.lits, f, output, st')
  }

  /** A block only appends, stays in its frame and leaves a state for the next. */
  lemma BlockAppends(c: WeightCode, data: seq<byte>, f: Frame, output: seq<byte>, st: EntropyState)
    requires Sound(c) && InFrame(f, output) && StateReady(st) && CompressedBlock(c, data, f, output, st).Ok?
    ensures var (out, st') := CompressedBlock(c, data, f, output, st).value;
      output <= out && InFrame(f, out) && StateReady(st')
  {
    hide LiteralsOf, Sound, PrevReady, UsableTable, SequencesPart;
    var l := LiteralsOf(c, data, st.huf).value;
    if l.consumed != |data| {
      SequencesAppend(data[l.consumed..], l.lits, f, output, st.(huf := l.huf));
    }
  }

  lemma SequencesAppend(data: seq<byte>, lits: seq<byte>, f: Frame, output: seq<byte>, st: EntropyState)
    requires InFrame(f, output) && PrevReady(st.prev) && SequencesPart(data, lits, f, output, st).Ok?
    ensures var (out, st') := SequencesPart(data, lits, f, output, st).value;
      output <= out && InFrame(f, out) && PrevReady(st'.prev) && st'.huf == st.huf
  {
    hide Section, SectionOf, SectionError, FieldReady, TablesReady;
    var (n, size) := SequenceCount(data).value;
    if n > 0 {
      var (t, m) := Section(data[size..], st.prev).value;
      SectionReady(data[size..], st.prev);
      var to := Target(output, f.start, Min(f.limit - (|output| - f.start), MAX_BLOCK_SIZE), f.history);
      SectionAppends(data[size..][m..], SectionTables(t), n, to, lits, st.reps);
    }
  }
}
