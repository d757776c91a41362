/** The encoder's table for each field of a sequences section: predefined, one
    code for all, described, or the one in force. Each comes with the header
    bytes that tell the decoder, and the decoder's table follows from them. */
module EncoderTables {
  import opened Arith
  import opened Bits
  import opened Wrappers
  import opened FseSpread
  import opened FseTable
  import opened FseEncodeTable
  import opened FseDescription
  import opened DescriptionCodec
  import opened SeqCodes
  import opened SeqStream
  import opened TableSection
  import opened BlockFormat

  // ----- predefined tables -----

  /** Both sides of a field coded with a symbol layout. */
  ghost predicate FieldFor(f: Field, k: Kind, syms: seq<nat>, log: nat) {
    && |syms| == Pow2(log) && (forall i :: 0 <= i < |syms| ==> syms[i] <= MaxCode(k))
    && f.kind == k && f.log == log && f.syms == syms && f.coder.Some? && Linked(f) && CoderReady(f.coder)
    && FieldTable(f.table, f.log) == Promoted(k, syms, log)
  }

  /** An encoder's table and the decoder's rows for a layout make a field. */
  lemma MakeField(k: Kind, syms: seq<nat>, log: nat, t: EncodeTable, n: nat) returns (f: Field)
    requires |syms| == Pow2(log) && (forall i :: 0 <= i < |syms| ==> syms[i] <= MaxCode(k))
    requires t.log == log && Encodes(t, syms, n)
    ensures FieldFor(f, k, syms, log) && f.coder == Some(t)
  {
    hide Encodes, Pow2, EntryOf;
    f := Field(k, Some(t), Promoted(k, syms, log).rows, log, syms, n);
    AllRowsMatch(f, |syms|);
    assert CoderReady(f.coder) by { CoderIsReady(t, syms, n); }
  }

  lemma CoderIsReady(t: EncodeTable, syms: seq<nat>, n: nat)
    requires Encodes(t, syms, n)
    ensures CoderReady(Some(t))
  {
  }

  ghost predicate IsPredefined(f: Field, k: Kind) {
    FieldFor(f, k, DefaultSyms(k), DefaultLog(k)) && FieldTable(f.table, f.log) == Predefined(k)
  }

  /** The predefined table of one field, on both sides. */
  method PredefinedField(k: Kind) returns (t: EncodeTable, ghost f: Field)
    ensures IsPredefined(f, k) && f.coder == Some(t)
  {
    DefaultFills(k);
    hide SpreadOf, Fills, HasWholeCell, Rows, Encodes, FieldFor, DefaultDist, Pow2, Promoted;
    var dist, log := DefaultDist(k), DefaultLog(k);
    var rows := BuildDecodeTable(dist, log);
    t := FromDecodeTable(rows.value, log, MaxCode(k), DefaultSyms(k));
    f := MakeField(k, DefaultSyms(k), log, t, MaxCode(k) + 1);
    FieldForTable(f, k, DefaultSyms(k), log);
  }

  lemma FieldForTable(f: Field, k: Kind, syms: seq<nat>, log: nat)
    requires |syms| == Pow2(log) && (forall i :: 0 <= i < |syms| ==> syms[i] <= MaxCode(k))
    requires FieldFor(f, k, syms, log)
    ensures FieldTable(f.table, f.log) == Promoted(k, syms, log)
  {
  }

  /** The largest code with a cell in the predefined table. */
  function DefaultTop(k: Kind): nat {
    if k == OffsetCode then 28 else MaxCode(k)
  }

  /** Predefined tables code the codes up to it, and no others. */
  lemma DefaultUsable(f: Field, k: Kind, code: nat)
    requires IsPredefined(f, k)
    ensures SeqStream.Usable(f, code) <==> code <= DefaultTop(k)
  {
    hide Linked, CoderReady, Predefined, Promoted, SpreadOf, Fills, HasWholeCell, Pow2, IsSpread;
    DefaultFills(k);
    SpreadCounts(DefaultSyms(k), DefaultDist(k), DefaultLog(k), code);
  }

  // ----- what a header announces -----

  function TableOfField(f: Field): FieldTable {
    FieldTable(f.table, f.log)
  }

  ghost predicate FieldReadyToCode(k: Kind, f: Field) {
    f.kind == k && Linked(f) && CoderReady(f.coder) && f.log <= MaxLog(k)
  }

  /** A mode and its header bytes tell the decoder of the field's table. */
  ghost predicate Announces(k: Kind, mode: nat, header: seq<byte>, f: Field, prev: Option<FieldTable>) {
    mode < 4 && FieldSection(k, mode, header, 0, prev) == Ok((TableOfField(f), |header|))
  }

  /** Wherever the header bytes are. */
  lemma AnnouncedAt(k: Kind, mode: nat, header: seq<byte>, f: Field, prev: Option<FieldTable>, data: seq<byte>, pos: nat)
    requires Announces(k, mode, header, f, prev)
    requires pos + |header| <= |data| && data[pos..pos + |header|] == header
    ensures FieldSection(k, mode, data, pos, prev) == Ok((TableOfField(f), pos + |header|))
  {
    hide Parse, Predefined, TableOf, HasWholeCell, LE;
    var x := data[pos..];
    assert x[..|header|] == data[pos..pos + |header|] && header[..|header|] == header;
    FieldLocal(k, mode, header, 0, prev, x, prev);
    assert x[0..] == data[pos..];
  }

  /** The predefined table needs no bytes. */
  lemma PredefinedAnnounces(k: Kind, f: Field, prev: Option<FieldTable>)
    requires IsPredefined(f, k)
    ensures Announces(k, 0, [], f, prev) && FieldReadyToCode(k, f)
  {
    hide Linked, CoderReady, Predefined, DefaultSyms, Promoted;
  }

  /** Repeat mode keeps the table in force. */
  lemma RepeatAnnounces(k: Kind, f: Field)
    ensures Announces(k, 3, [], f, Some(TableOfField(f)))
  {
  }

  // ----- one code for all -----

  ghost function RleField(k: Kind, code: nat): Field
    requires code <= MaxCode(k)
  {
    Field(k, None, TableSection.Single(k, code).rows, 0, [code], 0)
  }

  lemma RleAnnounces(k: Kind, code: nat, prev: Option<FieldTable>)
    requires code <= MaxCode(k)
    ensures Announces(k, 1, [code as byte], RleField(k, code), prev) && FieldReadyToCode(k, RleField(k, code))
    ensures SeqStream.Usable(RleField(k, code), code)
  {
    hide RowAt, ExtraOf;
    var f := RleField(k, code);
    assert CellCount([code], code) == 1;
    SingleCell([code], code);
    assert EntryOf(k, [code], 0, 0) == f.table[0];
    assert RowsMatch(f, 0);
    assert RowsMatch(f, 1);
  }

  // ----- described -----

  /** A described table, on both sides. */
  method DescribedField(k: Kind, dist: seq<int>, log: nat, ghost prev: Option<FieldTable>)
    returns (header: seq<byte>, t: EncodeTable, ghost f: Field)
    requires 5 <= log <= MaxLog(k) && 0 < |dist| <= MaxCode(k) + 1 && Fills(dist, log) && HasWholeCell(dist, log)
    ensures Announces(k, 2, header, f, prev) && FieldReadyToCode(k, f) && f.coder == Some(t)
    ensures forall code: nat :: code < |dist| && dist[code] != 0 ==> SeqStream.Usable(f, code)
  {
    hide SpreadOf, Fills, HasWholeCell, Encodes, FieldFor, Pow2, Promoted, DescriptionFields, Value, BitLen, LE, Linked,
         CoderReady, Announces;
    header := Serialize(dist, log);
    var ok;
    ok, t := FromDistribution(dist, log);
    SpreadInRange(k, dist, log);
    f := MakeField(k, SpreadOf(dist, log), log, t, |dist|);
    DescribedAnnounces(k, dist, log, header, f, prev);
    DescribedUsable(k, dist, log, f);
  }

  lemma DescribedAnnounces(k: Kind, dist: seq<int>, log: nat, header: seq<byte>, f: Field, prev: Option<FieldTable>)
    requires Described(k, dist, log) && log <= MaxLog(k)
    requires forall i :: 0 <= i < |SpreadOf(dist, log)| ==> SpreadOf(dist, log)[i] <= MaxCode(k)
    requires FieldFor(f, k, SpreadOf(dist, log), log)
    requires var fs := DescriptionFields(dist, log); LE(header) == Value(fs) && |header| == (BitLen(fs) + 7) / 8
    ensures Announces(k, 2, header, f, prev) && FieldReadyToCode(k, f)
  {
    hide SpreadOf, Fills, HasWholeCell, Pow2, Promoted, DescriptionFields, Value, BitLen, LE, Linked, CoderReady, FieldSection;
    DescribedSection(k, dist, log, header, prev);
  }

  lemma DescribedSection(k: Kind, dist: seq<int>, log: nat, header: seq<byte>, prev: Option<FieldTable>)
    requires Described(k, dist, log) && log <= MaxLog(k)
    requires var fs := DescriptionFields(dist, log); LE(header) == Value(fs) && |header| == (BitLen(fs) + 7) / 8
    ensures FieldSection(k, 2, header, 0, prev) == Ok((TableOf(k, dist, log), |header|))
  {
    hide SpreadOf, Fills, HasWholeCell, Pow2, Promoted, DescriptionFields, Value, BitLen, LE, Parse, Pad, TableOf, FieldSection;
    DescriptionBytes(header, [], dist, log, MaxCode(k));
    assert header + [] == header;
    PaddedTable(k, dist, log);
    ParsedSection(k, header, prev);
  }

  lemma ParsedSection(k: Kind, header: seq<byte>, prev: Option<FieldTable>)
    requires Parse(LE(header), 8 * |header|, MaxCode(k)).Ok?
    requires var d := Parse(LE(header), 8 * |header|, MaxCode(k)).value;
      Described(k, d.dist, d.log) && d.log <= MaxLog(k) && (8 * |header| - d.left + 7) / 8 == |header|
    ensures var d := Parse(LE(header), 8 * |header|, MaxCode(k)).value;
      FieldSection(k, 2, header, 0, prev) == Ok((TableOf(k, d.dist, d.log), |header|))
  {
    hide Fills, HasWholeCell, LE, Parse, TableOf;
    assert header[0..] == header;
    DescriptionFills(LE(header), 8 * |header|, MaxCode(k));
    ParseLeft(LE(header), 8 * |header|, MaxCode(k));
  }

  lemma PaddedTable(k: Kind, dist: seq<int>, log: nat)
    requires Described(k, dist, log)
    ensures Described(k, Pad(dist, MaxCode(k) + 1), log)
    ensures TableOf(k, Pad(dist, MaxCode(k) + 1), log) == TableOf(k, dist, log)
  {
    hide SpreadOf, Fills, HasWholeCell, Pow2;
    PadSpread(dist, MaxCode(k) + 1, log);
  }

  lemma DescribedUsable(k: Kind, dist: seq<int>, log: nat, f: Field)
    requires Described(k, dist, log)
    requires forall i :: 0 <= i < |SpreadOf(dist, log)| ==> SpreadOf(dist, log)[i] <= MaxCode(k)
    requires FieldFor(f, k, SpreadOf(dist, log), log)
    ensures forall code: nat :: code < |dist| && dist[code] != 0 ==> SeqStream.Usable(f, code)
  {
    hide SpreadOf, HasWholeCell, Pow2, Promoted, Linked, CoderReady, IsSpread;
    forall code: nat | code < |dist| && dist[code] != 0 ensures SeqStream.Usable(f, code) {
      SpreadCounts(SpreadOf(dist, log), dist, log, code);
    }
  }
}
