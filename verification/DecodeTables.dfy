/** The decoder's live sequence tables: parsing a section into them, with the
    shortcut for predefined tables that are already in place. */
module DecodeTables {
  import opened Arith
  import opened Bits
  import opened Wrappers
  import opened FseSpread
  import opened FseTable
  import opened FseDescription
  import opened ForwardBits
  import opened DescriptionCodec
  import opened SeqCodes
  import opened SeqStream
  import opened TableSection

  /** A field's live table: whether it is the predefined one, and whether a block
      may repeat it. */
  datatype LiveField = LiveField(table: FieldTable, predefined: bool, isSet: bool) {
    function Repeatable(): Option<FieldTable> {
      if isSet then Some(table) else None
    }
  }

  /** A table marked as predefined is. */
  ghost predicate LiveOk(k: Kind, f: LiveField) {
    f.predefined ==> f.table == Predefined(k)
  }

  /** Rows with each symbol's baseline and extra bits. */
  method Promote(k: Kind, rows: seq<Row>, log: nat, ghost syms: seq<nat>) returns (t: FieldTable)
    requires |syms| == Pow2(log) && (forall i :: 0 <= i < |syms| ==> syms[i] <= MaxCode(k)) && rows == Rows(syms, log)
    ensures t == Promoted(k, syms, log)
  {
    hide Pow2, RowAt, ExtraOf;
    var entries := [];
    for i := 0 to |rows|
      invariant |entries| == i
      invariant forall j :: 0 <= j < i ==> entries[j] == EntryOf(k, syms, log, j)
    {
      RowSymbol(syms, log, i);
      entries := entries + [SeqEntry(rows[i].base, rows[i].bits, ExtraOf(k, rows[i].symbol))];
    }
    t := FieldTable(entries, log);
  }

  lemma RowSymbol(syms: seq<nat>, log: nat, i: nat)
    requires |syms| == Pow2(log) && i < |syms|
    ensures RowAt(syms, log, i).symbol == syms[i]
  {
  }

  /** The decoder's table of a distribution, or none for one it rejects. */
  method BuildTable(k: Kind, dist: seq<int>, log: nat) returns (t: Option<FieldTable>)
    requires log >= 5 && Fills(dist, log) && |dist| <= MaxCode(k) + 1
    ensures if HasWholeCell(dist, log) then t == Some(TableOf(k, dist, log)) else t == None
  {
    hide SpreadOf, Fills, HasWholeCell, Rows, Pow2, Promoted;
    var rows := BuildDecodeTable(dist, log);
    if rows.None? {
      return None;
    }
    SpreadInRange(k, dist, log);
    var promoted := Promote(k, rows.value, log, SpreadOf(dist, log));
    return Some(promoted);
  }

  method BuildPredefined(k: Kind) returns (t: FieldTable)
    ensures t == Predefined(k)
  {
    DefaultFills(k);
    hide TableOf, Fills, HasWholeCell, DefaultDist;
    var built := BuildTable(k, DefaultDist(k), DefaultLog(k));
    t := built.value;
  }

  lemma ByteAt(data: seq<byte>, pos: nat)
    requires pos < |data|
    ensures Low(Shr(LE(data), 8 * pos), 8) == data[pos]
  {
    hide Low, Shr, LE, Pow2;
    LESlice(data, pos, pos + 1);
    assert data[pos..pos + 1] == [data[pos]];
    LEOne(data[pos]);
  }

  /** One field's table from the reader on. */
  method ParseField(k: Kind, mode: nat, reader: BitReader, prev: LiveField) returns (r: Result<LiveField, DecodeError>)
    requires reader.Valid() && reader.bitPos == 0 && LiveOk(k, prev) && mode < 4
    modifies reader
    ensures reader.Valid()
    ensures match FieldSection(k, mode, reader.data, old(reader.pos), prev.Repeatable())
      case Err(e) => r == Err(e)
      case Ok((t, q)) =>
        && r.Ok? && r.value.table == t && r.value.isSet && LiveOk(k, r.value)
        && reader.bitPos == 0 && reader.pos == q
  {
    hide Low, Shr, LE, Pow2, Predefined, Parse, Promoted;
    if mode == 0 {
      if prev.predefined {
        return Ok(prev.(isSet := true));
      }
      var t := BuildPredefined(k);
      return Ok(LiveField(t, true, true));
    } else if mode == 1 {
      var pos := reader.pos;
      var sym := reader.ReadBits(8);
      if sym.None? {
        return Err(InputExhausted);
      }
      ByteAt(reader.data, pos);
      if sym.value > MaxCode(k) {
        return Err(CorruptSequences);
      }
      return Ok(LiveField(Single(k, sym.value), false, true));
    } else if mode == 2 {
      r := ParseDescribed(k, reader);
    } else {
      if !prev.isSet {
        return Err(CorruptSequences);
      }
      return Ok(prev);
    }
  }

  method ParseDescribed(k: Kind, reader: BitReader) returns (r: Result<LiveField, DecodeError>)
    requires reader.Valid() && reader.bitPos == 0
    modifies reader
    ensures reader.Valid()
    ensures match FieldSection(k, 2, reader.data, old(reader.pos), None)
      case Err(e) => r == Err(e)
      case Ok((t, q)) =>
        && r.Ok? && r.value.table == t && r.value.isSet && !r.value.predefined
        && reader.bitPos == 0 && reader.pos == q
  {
    hide Low, Shr, LE, Pow2, Predefined, Parse, TableOf, HasWholeCell;
    var data, pos := reader.data, reader.pos;
    TailValue(data, pos);
    ghost var v, left := LE(data[pos..]), 8 * (|data| - pos);
    var parsed := ParseInto(reader, MaxCode(k));
    if parsed.Err? {
      return Err(parsed.error);
    }
    DescriptionFills(v, left, MaxCode(k));
    ParseLeft(v, left, MaxCode(k));
    var (dist, log) := parsed.value;
    if log > MaxLog(k) {
      return Err(BadFseTable);
    }
    var built := BuildTable(k, dist, log);
    if built.None? {
      return Err(BadFseTable);
    }
    return Ok(LiveField(built.value, false, true));
  }

  class SequenceDecodeTables {
    var ll: LiveField
    var of: LiveField
    var ml: LiveField

    ghost predicate Valid()
      reads this
    {
      LiveOk(LiteralLength, ll) && LiveOk(OffsetCode, of) && LiveOk(MatchLength, ml)
    }

    /** What a block may repeat. */
    ghost function Prev(): Three<Option<FieldTable>>
      reads this
    {
      Three(ll.Repeatable(), of.Repeatable(), ml.Repeatable())
    }

    function Tables(): Three<FieldTable>
      reads this
    {
      Three(ll.table, of.table, ml.table)
    }

    function AllSet(): bool
      reads this
    {
      ll.isSet && of.isSet && ml.isSet
    }

    function Fields(): Three<LiveField>
      reads this
    {
      Three(ll, of, ml)
    }

    /** Predefined tables, none of them repeatable yet. */
    constructor ()
      ensures Valid() && Prev() == Three(None, None, None)
    {
      var l := BuildPredefined(LiteralLength);
      var o := BuildPredefined(OffsetCode);
      var m := BuildPredefined(MatchLength);
      ll, of, ml := LiveField(l, true, false), LiveField(o, true, false), LiveField(m, true, false);
    }

    method ClearRepeatFlags()
      requires Valid()
      modifies this
      ensures Valid() && Prev() == Three(None, None, None) && Tables() == old(Tables())
      ensures ll.predefined == old(ll.predefined) && of.predefined == old(of.predefined) && ml.predefined == old(ml.predefined)
    {
      ll, of, ml := ll.(isSet := false), of.(isSet := false), ml.(isSet := false);
    }

    /** The predefined tables again, rebuilt only where others took their place. */
    method ResetDefault()
      requires Valid()
      modifies this
      ensures Valid() && Prev() == Three(None, None, None)
    {
      hide Predefined;
      if !ll.predefined {
        var l := BuildPredefined(LiteralLength);
        ll := LiveField(l, true, false);
      }
      ll := ll.(isSet := false);
      if !of.predefined {
        var o := BuildPredefined(OffsetCode);
        of := LiveField(o, true, false);
      }
      of := of.(isSet := false);
      if !ml.predefined {
        var m := BuildPredefined(MatchLength);
        ml := LiveField(m, true, false);
      }
      ml := ml.(isSet := false);
    }

    /** `clone_from` */
    method CloneFrom(source: Three<LiveField>)
      modifies this
      ensures Fields() == source
    {
      ll, of, ml := source.ll, source.of, source.ml;
    }

    /** A section parsed in place. A section that fails may have replaced some of
        the tables. */
    method Parse(data: seq<byte>) returns (r: Result<nat, DecodeError>)
      requires Valid()
      modifies this
      ensures Valid()
      ensures match Section(data, old(Prev()))
        case Err(e) => r == Err(e)
        case Ok((t, n)) => r == Ok(n) && Tables() == t && AllSet()
    {
      hide FieldSection, Predefined, LiveOk;
      if |data| == 0 || data[0] % 4 != 0 {
        return Err(CorruptSequences);
      }
      ModesBelow(data[0]);
      var reader := new BitReader(data[1..]);
      var f := ParseField(LiteralLength, LlMode(data[0]), reader, ll);
      if f.Err? {
        return Err(f.error);
      }
      ll := f.value;
      f := ParseField(OffsetCode, OfMode(data[0]), reader, of);
      if f.Err? {
        return Err(f.error);
      }
      of := f.value;
      f := ParseField(MatchLength, MlMode(data[0]), reader, ml);
      if f.Err? {
        return Err(f.error);
      }
      ml := f.value;
      return Ok(1 + reader.BytesConsumed());
    }
  }

  lemma ModesBelow(b: byte)
    ensures LlMode(b) < 4 && OfMode(b) < 4 && MlMode(b) < 4
  {
  }
}
