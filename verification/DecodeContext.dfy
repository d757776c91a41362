/** The decoder's reusable workspace: cached Huffman headers and weights, cached
    sequence tables and their flags, all proved to be invisible. What a block or
    a frame decodes to, errors included, is what it means without them. */
module DecodeContext {
  import opened Arith
  import opened Wrappers
  import opened Executor
  import opened Huffman
  import opened HuffmanFour
  import opened HuffmanStream
  import opened RepOffsets
  import opened SeqCodes
  import opened SeqStream
  import opened TableSection
  import opened DecodeTables
  import opened SectionDecode
  import opened BlockFormat

  /** Where a block's literals are: in the workspace's buffer, or in place with
      enough bytes after them. */
  datatype LiteralsAt = Buffer(len: nat) | Block(start: nat, len: nat)

  /** The literals at the front of `bytes`, with as much slack as there is. */
  function LiteralsIn(bytes: seq<byte>, len: nat): (l: Literals)
    requires len <= |bytes|
    ensures l.Valid() && l.AsSlice() == bytes[..len]
  {
    var l := Literals(bytes[..Min(len + LITERAL_OVERREAD, |bytes|)], len);
    assert l.fast[..len] == bytes[..len];
    l
  }

  predicate Resolves(at: LiteralsAt, data: seq<byte>, buf: seq<byte>) {
    match at
    case Buffer(len) => len <= |buf|
    case Block(start, len) => start + len <= |data|
  }

  function Resolve(at: LiteralsAt, data: seq<byte>, buf: seq<byte>): (l: Literals)
    requires Resolves(at, data, buf)
    ensures l.Valid()
  {
    match at
    case Buffer(len) => LiteralsIn(buf, len)
    case Block(start, len) => LiteralsIn(data[start..], len)
  }

  /** What a context keeps of its dictionary. */
  datatype CachedDict = CachedDict(tables: Three<LiveField>, reps: Reps, huf: Option<HufTable>)

  class BlockDecodeWorkspace {
    const code: WeightCode
    var literalBuf: seq<byte>
    var hufTable: Option<HufTable>
    var hufPairs: seq<PairRow>
    var hufPairsValid: bool
    var hufValid: bool
    var hufLastWeights: seq<nat>
    var hufLastWeightsValid: bool
    var hufLastHeader: seq<byte>
    var hufLastHeaderValid: bool
    var seqTables: SequenceDecodeTables?
    var seqTableHeader: seq<byte>
    var seqTableCache: Option<Three<LiveField>>
    var seqTableCacheTablesCurrent: bool
    var cachedDict: Option<CachedDict>

    // ----- what the caches claim -----

    /** The live Huffman table is what the cached weights build, the cached header
        is what they were parsed from, and the pairs are the table's. */
    ghost predicate HuffmanOk()
      reads this`hufTable, this`hufPairs, this`hufPairsValid, this`hufValid, this`hufLastWeights,
            this`hufLastWeightsValid, this`hufLastHeader, this`hufLastHeaderValid
    {
      && Sound(code)
      && (hufValid ==> hufTable.Some?)
      && (hufTable.Some? ==> UsableTable(hufTable.value))
      && (hufLastWeightsValid ==> hufTable.Some? && code.build(hufLastWeights) == Ok(hufTable.value))
      && (hufLastWeightsValid && hufLastHeaderValid ==> code.parse(hufLastHeader) == Ok((hufLastWeights, |hufLastHeader|)))
      && (hufPairsValid ==> hufTable.Some? && PairsOf(hufPairs, hufTable.value))
    }

    /** The cached tables are what the cached header means, and it repeats none. */
    ghost predicate TableCacheOk()
      reads this`seqTableHeader, this`seqTableCache
    {
      seqTableCache.Some? ==>
        && HeaderMeans(seqTableHeader, seqTableCache.value)
        && FieldsOk(seqTableCache.value)
    }

    ghost predicate Valid()
      reads this`hufTable, this`hufPairs, this`hufPairsValid, this`hufValid, this`hufLastWeights,
            this`hufLastWeightsValid, this`hufLastHeader, this`hufLastHeaderValid, this`seqTableHeader, this`seqTableCache
    {
      HuffmanOk() && TableCacheOk()
    }

    /** While the flag says so, the live tables are the cached ones. */
    ghost predicate InSync(t: SequenceDecodeTables)
      reads this`seqTableCacheTablesCurrent, this`seqTableCache, t
    {
      seqTableCacheTablesCurrent && seqTableCache.Some? ==> SameTables(t.Fields(), seqTableCache.value)
    }

    /** The Huffman table that a block may use without a description. */
    ghost function LiveHuffman(): Option<HufTable>
      reads this`hufValid, this`hufTable
    {
      if hufValid then hufTable else None
    }

    /** A new workspace; its sequence tables are the predefined ones. */
    constructor (c: WeightCode)
      requires Sound(c)
      ensures Valid() && code == c && seqTables != null && fresh(seqTables)
      ensures seqTables.Valid() && seqTables.Prev() == NO_TABLES && InSync(seqTables)
      ensures LiveHuffman() == None && cachedDict == None
    {
      hide Sound, UsableTable, PairsOf, FieldsOk, HeaderMeans;
      var tables := new SequenceDecodeTables();
      code, literalBuf, hufTable, hufPairs := c, [], None, [];
      hufPairsValid, hufValid, hufLastWeightsValid, hufLastHeaderValid := false, false, false, false;
      hufLastWeights, hufLastHeader, seqTableHeader := [], [], [];
      seqTables, seqTableCache, seqTableCacheTablesCurrent := tables, None, false;
      cachedDict := None;
    }

    method ResetHuffmanState()
      requires Valid()
      modifies this`hufValid
      ensures Valid() && LiveHuffman() == None
    {
      hide TableCacheOk, UsableTable, PairsOf, Sound;
      hufValid := false;
    }

    /** A dictionary's Huffman table, which no cached header or weights describe. */
    method ReplaceHuffman(t: HufTable)
      requires Valid() && UsableTable(t)
      modifies this`hufTable, this`hufValid, this`hufPairsValid, this`hufLastWeightsValid, this`hufLastHeaderValid
      ensures Valid() && LiveHuffman() == Some(t)
    {
      hide TableCacheOk, UsableTable, PairsOf, Sound;
      hufTable, hufValid := Some(t), true;
      hufPairsValid, hufLastWeightsValid, hufLastHeaderValid := false, false, false;
    }

    method SeqTablesReplaced()
      requires Valid()
      modifies this`seqTableCacheTablesCurrent
      ensures Valid() && !seqTableCacheTablesCurrent
    {
      hide TableCacheOk, HuffmanOk;
      seqTableCacheTablesCurrent := false;
    }

    // ----- Huffman tables -----

    /** The table of a section, from the header cache, the weight cache or a fresh
        build. */
    method FindTable(treeless: bool, body: seq<byte>) returns (r: Result<nat, DecodeError>)
      requires Valid()
      modifies this`hufTable, this`hufValid, this`hufPairsValid, this`hufLastWeights, this`hufLastWeightsValid,
               this`hufLastHeader, this`hufLastHeaderValid
      ensures Valid()
      ensures match SectionTable(code, treeless, body, old(LiveHuffman()))
        case Err(e) => r == Err(e)
        case Ok((t, n)) => r == Ok(n) && LiveHuffman() == Some(t)
    {
      hide TableCacheOk, UsableTable, PairsOf, Sound;
      if treeless {
        return if hufValid then Ok(0) else Err(CorruptLiterals);
      }
      if hufLastHeaderValid && hufLastWeightsValid && |body| >= |hufLastHeader| && body[..|hufLastHeader|] == hufLastHeader {
        assert hufLastHeader[..|hufLastHeader|] == hufLastHeader;
        SameParse(code, hufLastHeader, body);
        hufValid := true;
        return Ok(|hufLastHeader|);
      }
      var parsed := code.parse(body);
      if parsed.Err? {
        return Err(parsed.error);
      }
      var (weights, consumed) := parsed.value;
      ParseOk(code, body);
      SameParse(code, body, body[..consumed]);
      var canReuse := hufLastWeightsValid && weights == hufLastWeights;
      if !canReuse {
        var built := code.build(weights);
        if built.Err? {
          return Err(built.error);
        }
        hufTable := Some(built.value);
        hufPairsValid := false;
        hufLastWeights := weights;
        hufLastWeightsValid := true;
      }
      hufLastHeader := body[..consumed];
      hufLastHeaderValid := true;
      hufValid := true;
      return Ok(consumed);
    }

    /** Literals by the live table, to the buffer with zeroed slack. Which of the
        two four-stream decoders runs is left open. */
    method DecodeHuffman(streams: nat, body: seq<byte>, n: nat) returns (ok: bool)
      requires Valid() && LiveHuffman().Some?
      modifies this`hufPairs, this`hufPairsValid, this`literalBuf
      ensures Valid() && LiveHuffman() == old(LiveHuffman())
      ensures match HuffmanLiterals(LiveHuffman().value, streams, body, n)
        case None => !ok
        case Some(lits) => ok && n <= |literalBuf| && literalBuf[..n] == lits && |lits| == n
    {
      hide TableCacheOk, PairsOf, FourSymbols, StreamSymbols, PrefixConsistent, HufTable.Valid;
      var t := hufTable.value;
      var out;
      if streams == 1 {
        out := DecodeSingleStream(t, body, n);
      } else {
        var usePairs := *;
        if usePairs {
          if !hufPairsValid {
            hufPairs := BuildPairTable(t);
            hufPairsValid := true;
          }
          out := DecodeFourStreams(t, Some(hufPairs), body, n);
        } else {
          out := DecodeFourStreams(t, None, body, n);
        }
      }
      if out.None? {
        literalBuf := [];
        return false;
      }
      LiteralCount(t, streams, body, n);
      literalBuf := out.value + Fill(0, LITERAL_OVERREAD);
      return true;
    }

    // ----- literals -----

    /** Raw and RLE literals. Raw ones stay in the block when it has the slack
        after them. */
    method DecodePlain(data: seq<byte>) returns (r: Result<(nat, LiteralsAt), DecodeError>)
      requires |data| > 0
      modifies this`literalBuf
      ensures match PlainLiterals(data)
        case Err(e) => r == Err(e)
        case Ok((n, lits)) =>
          && r.Ok? && r.value.0 == n && Resolves(r.value.1, data, literalBuf)
          && Resolve(r.value.1, data, literalBuf).AsSlice() == lits
    {
      hide RawHeader;
      var h := RawHeader(data);
      if h.None? || h.value.regen > MAX_BLOCK_SIZE {
        return Err(CorruptLiterals);
      }
      var start, regen := h.value.size, h.value.regen;
      if data[0] % 4 == 0 {
        var end := start + regen;
        if |data| < end {
          return Err(CorruptLiterals);
        }
        if |data| - end >= LITERAL_OVERREAD {
          return Ok((end, Block(start, regen)));
        }
        literalBuf := data[start..end] + Fill(0, LITERAL_OVERREAD);
        return Ok((end, Buffer(regen)));
      }
      if |data| < start + 1 {
        return Err(CorruptLiterals);
      }
      literalBuf := Fill(data[start], regen) + Fill(0, LITERAL_OVERREAD);
      return Ok((start + 1, Buffer(regen)));
    }

    /** A section's table, from its description or kept, and its streams. */
    method DecodeBody(treeless: bool, body: seq<byte>, streams: nat, regen: nat) returns (error: Option<DecodeError>)
      requires Valid()
      modifies this`hufTable, this`hufValid, this`hufPairs, this`hufPairsValid, this`hufLastWeights,
               this`hufLastWeightsValid, this`hufLastHeader, this`hufLastHeaderValid, this`literalBuf
      ensures Valid()
      ensures Sound(code) && (old(LiveHuffman()).Some? ==> UsableTable(old(LiveHuffman()).value))
      ensures match SectionTable(code, treeless, body, old(LiveHuffman()))
        case Err(e) => error == Some(e)
        case Ok((t, n)) =>
          match HuffmanLiterals(t, streams, body[n..], regen)
          case None => error == Some(BadHuffmanStream)
          case Some(lits) =>
            && error == None && LiveHuffman() == Some(t)
            && |lits| == regen <= |literalBuf| && literalBuf[..regen] == lits
    {
      hide TableCacheOk, HuffmanOk, Sound, UsableTable, HuffmanLiterals, SectionTable;
      LiveUsable();
      var found := FindTable(treeless, body);
      if found.Err? {
        return Some(found.error);
      }
      LiveUsable();
      var ok := DecodeHuffman(streams, body[found.value..], regen);
      return if ok then None else Some(BadHuffmanStream);
    }

    /** Compressed and treeless literals. */
    method DecodeCoded(data: seq<byte>) returns (r: Result<(nat, LiteralsAt), DecodeError>)
      requires Valid() && |data| > 0
      modifies this`hufTable, this`hufValid, this`hufPairs, this`hufPairsValid, this`hufLastWeights,
               this`hufLastWeightsValid, this`hufLastHeader, this`hufLastHeaderValid, this`literalBuf
      ensures Valid()
      ensures Sound(code) && (old(LiveHuffman()).Some? ==> UsableTable(old(LiveHuffman()).value))
      ensures match CodedLiterals(code, data, old(LiveHuffman()))
        case Err(e) => r == Err(e)
        case Ok(l) =>
          && r.Ok? && r.value.0 == l.consumed && Resolves(r.value.1, data, literalBuf)
          && Resolve(r.value.1, data, literalBuf).AsSlice() == l.lits
          && LiveHuffman() == l.huf
    {
      hide TableCacheOk, HuffmanOk, Sound, UsableTable, HuffmanLiterals, SectionTable, CompressedHeader, CodedLiterals;
      LiveUsable();
      CodedCases(code, data, LiveHuffman());
      var h := CompressedHeader(data);
      if h.None? || h.value.regen > MAX_BLOCK_SIZE || |data| < h.value.size + h.value.comp {
        return Err(CorruptLiterals);
      }
      var end := h.value.size + h.value.comp;
      var error := DecodeBody(data[0] % 4 == 3, data[h.value.size..end], h.value.streams, h.value.regen);
      return if error.Some? then Err(error.value) else Ok((end, Buffer(h.value.regen)));
    }

    lemma LiveUsable()
      requires Valid()
      ensures Sound(code) && (LiveHuffman().Some? ==> UsableTable(LiveHuffman().value))
    {
    }

    /** The literals section at the front of a block: what it means, and where its
        literals are. */
    method DecodeLiterals(data: seq<byte>) returns (r: Result<(nat, LiteralsAt), DecodeError>)
      requires Valid()
      modifies this`hufTable, this`hufValid, this`hufPairs, this`hufPairsValid, this`hufLastWeights,
               this`hufLastWeightsValid, this`hufLastHeader, this`hufLastHeaderValid, this`literalBuf
      ensures Valid()
      ensures Sound(code) && (old(LiveHuffman()).Some? ==> UsableTable(old(LiveHuffman()).value))
      ensures match LiteralsOf(code, data, old(LiveHuffman()))
        case Err(e) => r == Err(e)
        case Ok(l) =>
          && r.Ok? && r.value.0 == l.consumed && Resolves(r.value.1, data, literalBuf)
          && Resolve(r.value.1, data, literalBuf).AsSlice() == l.lits
          && LiveHuffman() == l.huf
    {
      hide TableCacheOk, HuffmanOk, Sound, UsableTable, PlainLiterals, CodedLiterals, Resolve, Resolves;
      LiveUsable();
      if |data| == 0 {
        return Err(CorruptLiterals);
      }
      if data[0] % 4 < 2 {
        r := DecodePlain(data);
      } else {
        r := DecodeCoded(data);
      }
    }

    // ----- sequence tables -----

    /** A sequence tables section: from the cache when it starts with the cached
        header, which copies the tables only when the live ones are others. */
    method ParseSequenceTables(data: seq<byte>, prev: SequenceDecodeTables) returns (r: Result<nat, DecodeError>)
      requires Valid() && prev.Valid() && InSync(prev)
      modifies prev, this`seqTableHeader, this`seqTableCache, this`seqTableCacheTablesCurrent
      ensures Valid() && prev.Valid()
      ensures match Section(data, old(prev.Prev()))
        case Err(e) => r == Err(e)
        case Ok((t, n)) => r == Ok(n) && prev.Tables() == t && prev.AllSet() && InSync(prev)
    {
      hide HuffmanOk, Section, LiveOk;
      if |data| == 0 || data[0] % 4 != 0 {
        BadModeByte(data, prev.Prev());
        return Err(CorruptSequences);
      }
      var cacheable := LlMode(data[0]) != 3 && OfMode(data[0]) != 3 && MlMode(data[0]) != 3;
      if cacheable && seqTableCache.Some? && |data| >= |seqTableHeader| && data[..|seqTableHeader|] == seqTableHeader {
        CacheHit(seqTableHeader, seqTableCache.value, data, prev.Prev());
        if seqTableCacheTablesCurrent {
          prev.ll, prev.of, prev.ml := prev.ll.(isSet := seqTableCache.value.ll.isSet),
            prev.of.(isSet := seqTableCache.value.of.isSet), prev.ml.(isSet := seqTableCache.value.ml.isSet);
        } else {
          prev.CloneFrom(seqTableCache.value);
          seqTableCacheTablesCurrent := true;
        }
        return Ok(|seqTableHeader|);
      }
      ghost var before := prev.Prev();
      r := prev.Parse(data);
      if r.Err? {
        return;
      }
      if cacheable {
        ModesBelow(data[0]);
        CacheFill(data, before, r.value, prev.Fields());
        seqTableHeader := data[..r.value];
        seqTableCache := Some(prev.Fields());
        seqTableCacheTablesCurrent := true;
      } else {
        seqTableCacheTablesCurrent := false;
      }
    }
  }

  lemma BadModeByte(data: seq<byte>, prev: Three<Option<FieldTable>>)
    requires |data| == 0 || data[0] % 4 != 0
    ensures Section(data, prev) == Err(CorruptSequences)
  {
  }

  /** A block that starts with the cached header means the cached tables. */
  lemma CacheHit(header: seq<byte>, f: Three<LiveField>, data: seq<byte>, prev: Three<Option<FieldTable>>)
    requires HeaderMeans(header, f) && |data| >= |header| && data[..|header|] == header
    ensures Section(data, prev) == Ok((TablesIn(f), |header|))
  {
    hide Section;
    assert header[..|header|] == header;
    SectionLocal(header, NO_TABLES, data, prev);
  }

  /** And a section just parsed may be cached. */
  lemma CacheFill(data: seq<byte>, prev: Three<Option<FieldTable>>, n: nat, f: Three<LiveField>)
    requires |data| > 0 && LlMode(data[0]) < 3 && OfMode(data[0]) < 3 && MlMode(data[0]) < 3
    requires Section(data, prev) == Ok((TablesIn(f), n)) && f.ll.isSet && f.of.isSet && f.ml.isSet
    ensures n <= |data| && HeaderMeans(data[..n], f)
  {
    SectionTakesModeByte(data, prev);
    hide Section;
    assert data[..n][..n] == data[..n];
    SectionLocal(data, prev, data[..n], NO_TABLES);
  }

  lemma SectionTakesModeByte(data: seq<byte>, prev: Three<Option<FieldTable>>)
    requires Section(data, prev).Ok?
    ensures Section(data, prev).value.1 > 0
  {
    hide FieldSection;
  }

  lemma LiteralCount(t: HufTable, streams: nat, body: seq<byte>, n: nat)
    requires t.Valid()
    ensures HuffmanLiterals(t, streams, body, n).Some? ==> |HuffmanLiterals(t, streams, body, n).value| == n
  {
    hide Symbols;
  }

  ghost predicate FieldsOk(f: Three<LiveField>) {
    LiveOk(LiteralLength, f.ll) && LiveOk(OffsetCode, f.of) && LiveOk(MatchLength, f.ml)
  }

  ghost predicate Cacheable(header: seq<byte>) {
    |header| > 0 && LlMode(header[0]) < 3 && OfMode(header[0]) < 3 && MlMode(header[0]) < 3
  }

  const NO_TABLES: Three<Option<FieldTable>> := Three(None, None, None)

  function TablesIn(f: Three<LiveField>): Three<FieldTable> {
    Three(f.ll.table, f.of.table, f.ml.table)
  }

  ghost predicate HeaderMeans(header: seq<byte>, f: Three<LiveField>) {
    && Cacheable(header)
    && Section(header, NO_TABLES) == Ok((TablesIn(f), |header|))
    && f.ll.isSet && f.of.isSet && f.ml.isSet
  }

  /** Equal but for the repeat flags. */
  ghost predicate SameTables(a: Three<LiveField>, b: Three<LiveField>) {
    && a.ll.table == b.ll.table && a.ll.predefined == b.ll.predefined
    && a.of.table == b.of.table && a.of.predefined == b.of.predefined
    && a.ml.table == b.ml.table && a.ml.predefined == b.ml.predefined
  }
}
