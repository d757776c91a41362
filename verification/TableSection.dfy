/** The sequence tables section (section 3.1.1.3.2.1 of RFC 8878): what its mode
    byte and descriptions say about the three decoding tables. This is the
    meaning without any cache. */
module TableSection {
  import opened Arith
  import opened Bits
  import opened Wrappers
  import opened FseSpread
  import opened FseTable
  import opened FseDescription
  import opened SeqCodes
  import opened SeqStream
  import opened DescriptionCodec

  // ----- predefined distributions -----

  /** `k` symbols of the same probability. */
  function Times(p: int, k: nat): (s: seq<int>)
    ensures |s| == k && forall i :: 0 <= i < k ==> s[i] == p
  {
    seq(k, _ => p)
  }

  const LL_DEFAULT_DIST: seq<int> :=
    Times(4, 1) + Times(3, 1) + Times(2, 11) + Times(1, 3) + Times(2, 9) + Times(3, 1) + Times(2, 1) +
    Times(1, 5) + Times(-1, 4)

  const ML_DEFAULT_DIST: seq<int> :=
    Times(1, 1) + Times(4, 1) + Times(3, 1) + Times(2, 6) + Times(1, 37) + Times(-1, 7)

  const OF_DEFAULT_DIST: seq<int> := Times(1, 6) + Times(2, 3) + Times(1, 15) + Times(-1, 5)

  function DefaultDist(k: Kind): seq<int> {
    match k case LiteralLength => LL_DEFAULT_DIST case MatchLength => ML_DEFAULT_DIST case OffsetCode => OF_DEFAULT_DIST
  }

  function DefaultLog(k: Kind): nat {
    match k case OffsetCode => 5 case _ => 6
  }

  /** Largest accuracy log of a described table. */
  function MaxLog(k: Kind): nat {
    match k case OffsetCode => 8 case _ => 9
  }

  function AllCells(dist: seq<int>): nat {
    TotalCells(dist, |dist|)
  }

  lemma {:induction false} AllCellsConcat(a: seq<int>, b: seq<int>)
    ensures AllCells(a + b) == AllCells(a) + AllCells(b)
    decreases |b|
  {
    if |b| == 0 {
      assert a + b == a;
    } else {
      var c := b[..|b| - 1];
      assert a + b == a + c + [b[|b| - 1]] && b == c + [b[|b| - 1]];
      AllCellsConcat(a, c);
      AppendCells(a + c, b[|b| - 1]);
      AppendCells(c, b[|b| - 1]);
    }
  }

  lemma {:induction false} AllCellsTimes(p: int, k: nat)
    ensures AllCells(Times(p, k)) == k * Cells(p)
  {
    if k > 0 {
      AllCellsTimes(p, k - 1);
      assert Times(p, k) == Times(p, k - 1) + [p];
      AppendCells(Times(p, k - 1), p);
    }
  }

  lemma AddRun(a: seq<int>, p: int, k: nat)
    ensures AllCells(a + Times(p, k)) == AllCells(a) + k * Cells(p)
  {
    AllCellsConcat(a, Times(p, k));
    AllCellsTimes(p, k);
  }

  lemma LlDefaultCells()
    ensures AllCells(LL_DEFAULT_DIST) == 64
  {
    hide Times, AllCells;
    var a := Times(4, 1);
    AllCellsTimes(4, 1);
    AddRun(a, 3, 1);
    AddRun(a + Times(3, 1), 2, 11);
    AddRun(a + Times(3, 1) + Times(2, 11), 1, 3);
    var b := a + Times(3, 1) + Times(2, 11) + Times(1, 3);
    AddRun(b, 2, 9);
    AddRun(b + Times(2, 9), 3, 1);
    AddRun(b + Times(2, 9) + Times(3, 1), 2, 1);
    var c := b + Times(2, 9) + Times(3, 1) + Times(2, 1);
    AddRun(c, 1, 5);
    AddRun(c + Times(1, 5), -1, 4);
  }

  lemma MlDefaultCells()
    ensures AllCells(ML_DEFAULT_DIST) == 64
  {
    hide Times, AllCells;
    var a := Times(1, 1);
    AllCellsTimes(1, 1);
    AddRun(a, 4, 1);
    AddRun(a + Times(4, 1), 3, 1);
    var b := a + Times(4, 1) + Times(3, 1);
    AddRun(b, 2, 6);
    AddRun(b + Times(2, 6), 1, 37);
    AddRun(b + Times(2, 6) + Times(1, 37), -1, 7);
  }

  lemma OfDefaultCells()
    ensures AllCells(OF_DEFAULT_DIST) == 32
  {
    hide Times, AllCells;
    var a := Times(1, 6);
    AllCellsTimes(1, 6);
    AddRun(a, 2, 3);
    AddRun(a + Times(2, 3), 1, 15);
    AddRun(a + Times(2, 3) + Times(1, 15), -1, 5);
  }

  /** The predefined distributions fill their tables, and have a cell for every
      code: literal lengths to 35, match lengths to 52, offsets to 28. */
  lemma DefaultFills(k: Kind)
    ensures var d := DefaultDist(k);
      && Fills(d, DefaultLog(k)) && HasWholeCell(d, DefaultLog(k))
      && |d| == (match k case OffsetCode => 29 case _ => MaxCode(k) + 1)
      && forall s :: 0 <= s < |d| ==> Cells(d[s]) > 0
  {
    var d := DefaultDist(k);
    Pow2Values();
    CellsSplit(d, |d|);
    DefaultShape(k);
    match k {
      case LiteralLength => LlDefaultCells();
      case MatchLength => MlDefaultCells();
      case OffsetCode => OfDefaultCells();
    }
  }

  lemma DefaultShape(k: Kind)
    ensures var d := DefaultDist(k);
      && |d| == (match k case OffsetCode => 29 case _ => MaxCode(k) + 1)
      && forall s :: 0 <= s < |d| ==> d[s] >= -1 && d[s] != 0
  {
  }

  // ----- the tables of a section -----

  /** A field's decoding rows and their accuracy log. */
  datatype FieldTable = FieldTable(rows: seq<SeqEntry>, log: nat)

  datatype Three<T> = Three(ll: T, of: T, ml: T)

  ghost function Promoted(k: Kind, syms: seq<nat>, log: nat): (t: FieldTable)
    requires |syms| == Pow2(log) && forall i :: 0 <= i < |syms| ==> syms[i] <= MaxCode(k)
    ensures |t.rows| == Pow2(log) && t.log == log
  {
    FieldTable(seq(|syms|, i requires 0 <= i < |syms| => EntryOf(k, syms, log, i)), log)
  }

  ghost predicate Described(k: Kind, dist: seq<int>, log: nat) {
    log >= 5 && Fills(dist, log) && HasWholeCell(dist, log) && |dist| <= MaxCode(k) + 1
  }

  lemma SpreadInRange(k: Kind, dist: seq<int>, log: nat)
    requires Described(k, dist, log)
    ensures forall i :: 0 <= i < |SpreadOf(dist, log)| ==> SpreadOf(dist, log)[i] <= MaxCode(k)
  {
    hide SpreadOf, Fills, HasWholeCell;
    forall i | 0 <= i < |SpreadOf(dist, log)| ensures SpreadOf(dist, log)[i] <= MaxCode(k) {
      SymbolOfSpread(SpreadOf(dist, log), dist, log, i);
    }
  }

  /** The table of a distribution. */
  ghost function TableOf(k: Kind, dist: seq<int>, log: nat): (t: FieldTable)
    requires Described(k, dist, log)
    ensures |t.rows| == Pow2(log) && t.log == log
  {
    SpreadInRange(k, dist, log);
    Promoted(k, SpreadOf(dist, log), log)
  }

  ghost function Predefined(k: Kind): FieldTable {
    DefaultFills(k);
    TableOf(k, DefaultDist(k), DefaultLog(k))
  }

  /** The predefined layout of a field. */
  ghost function DefaultSyms(k: Kind): (syms: seq<nat>)
    ensures |syms| == Pow2(DefaultLog(k)) && forall i :: 0 <= i < |syms| ==> syms[i] <= MaxCode(k)
    ensures Predefined(k) == Promoted(k, syms, DefaultLog(k))
  {
    DefaultFills(k);
    SpreadInRange(k, DefaultDist(k), DefaultLog(k));
    SpreadOf(DefaultDist(k), DefaultLog(k))
  }

  /** The table of a code that every sequence has. */
  function Single(k: Kind, code: nat): FieldTable
    requires code <= MaxCode(k)
  {
    FieldTable([SeqEntry(0, 0, ExtraOf(k, code))], 0)
  }

  /** Bytes of a description that leaves `left` of the bits from `pos` on. */
  function DescriptionLength(data: seq<byte>, pos: nat, left: nat): nat
    requires pos <= |data| && left <= 8 * (|data| - pos)
  {
    (8 * (|data| - pos) - left + 7) / 8
  }

  /** One field's table, at `pos`, and the position after it. */
  ghost function FieldSection(k: Kind, mode: nat, data: seq<byte>, pos: nat, prev: Option<FieldTable>)
    : (r: Result<(FieldTable, nat), DecodeError>)
    requires pos <= |data|
    ensures r.Ok? ==> pos <= r.value.1 <= |data|
  {
    match mode
    case 0 => Ok((Predefined(k), pos))
    case 1 =>
      if pos == |data| then Err(InputExhausted)
      else if data[pos] > MaxCode(k) then Err(CorruptSequences)
      else Ok((Single(k, data[pos]), pos + 1))
    case 2 =>
      (match Parse(LE(data[pos..]), 8 * (|data| - pos), MaxCode(k))
       case Err(e) => Err(e)
       case Ok(d) =>
         DescriptionFills(LE(data[pos..]), 8 * (|data| - pos), MaxCode(k));
         ParseLeft(LE(data[pos..]), 8 * (|data| - pos), MaxCode(k));
         if d.log > MaxLog(k) || !HasWholeCell(d.dist, d.log) then Err(BadFseTable)
         else Ok((TableOf(k, d.dist, d.log), pos + DescriptionLength(data, pos, d.left))))
    case _ => if prev.Some? then Ok((prev.value, pos)) else Err(CorruptSequences)
  }

  /** A field with one code for all takes one byte, the code, which is at most 35 for
      literal lengths, 31 for offsets and 52 for match lengths; its one row stays in
      state 0 without reading. */
  lemma SingleCode(k: Kind, data: seq<byte>, pos: nat, prev: Option<FieldTable>)
    requires pos <= |data|
    ensures var r := FieldSection(k, 1, data, pos, prev);
      var top := match k case LiteralLength => 35 case OffsetCode => 31 case MatchLength => 52;
      && (pos == |data| ==> r == Err(InputExhausted))
      && (pos < |data| && data[pos] > top ==> r == Err(CorruptSequences))
      && (pos < |data| && data[pos] <= top ==>
        data[pos] <= MaxCode(k) && r == Ok((FieldTable([SeqEntry(0, 0, ExtraOf(k, data[pos]))], 0), pos + 1)))
  {
  }

  lemma ParseLeft(v: nat, left: nat, maxSymbol: nat)
    requires Parse(v, left, maxSymbol).Ok?
    ensures Parse(v, left, maxSymbol).value.left <= left && |Parse(v, left, maxSymbol).value.dist| == maxSymbol + 1
  {
  }

  /** The fields' modes, in a mode byte without reserved bits. */
  function LlMode(b: byte): nat { b / 64 }
  function OfMode(b: byte): nat { b / 16 % 4 }
  function MlMode(b: byte): nat { b / 4 % 4 }

  /** The section: a mode byte, then the fields' tables in the order literal
      length, offset, match length. */
  ghost function Section(data: seq<byte>, prev: Three<Option<FieldTable>>): (r: Result<(Three<FieldTable>, nat), DecodeError>)
    ensures r.Ok? ==> r.value.1 <= |data|
  {
    if |data| == 0 || data[0] % 4 != 0 then Err(CorruptSequences)
    else
      var rest := data[1..];
      match FieldSection(LiteralLength, LlMode(data[0]), rest, 0, prev.ll)
      case Err(e) => Err(e)
      case Ok((ll, p1)) =>
        match FieldSection(OffsetCode, OfMode(data[0]), rest, p1, prev.of)
        case Err(e) => Err(e)
        case Ok((of, p2)) =>
          match FieldSection(MatchLength, MlMode(data[0]), rest, p2, prev.ml)
          case Err(e) => Err(e)
          case Ok((ml, p3)) => Ok((Three(ll, of, ml), 1 + p3))
  }

  // ----- a section does not depend on what follows it, nor without repeat
  // modes on the tables before it -----

  lemma SlicesAgree(a: seq<byte>, b: seq<byte>, p: nat, q: nat)
    requires p <= q <= |a| && q <= |b| && a[..q] == b[..q]
    ensures Low(LE(a[p..]), 8 * (q - p)) == Low(LE(b[p..]), 8 * (q - p))
  {
    hide Low, LE;
    assert a[p..q] == a[..q][p..] == b[..q][p..] == b[p..q];
    LESlice(a[p..], 0, q - p);
    LESlice(b[p..], 0, q - p);
    assert a[p..][0..q - p] == a[p..q] && b[p..][0..q - p] == b[p..q];
    ShrZero(LE(a[p..]));
    ShrZero(LE(b[p..]));
  }

  lemma FieldLocal(k: Kind, mode: nat, a: seq<byte>, pos: nat, prev: Option<FieldTable>, b: seq<byte>, prev': Option<FieldTable>)
    requires pos <= |a| && FieldSection(k, mode, a, pos, prev).Ok? && (mode < 3 || prev' == prev)
    requires var q := FieldSection(k, mode, a, pos, prev).value.1; q <= |b| && a[..q] == b[..q]
    ensures FieldSection(k, mode, b, pos, prev') == FieldSection(k, mode, a, pos, prev)
  {
    hide Low, LE, Parse, Predefined, TableOf, HasWholeCell;
    var q := FieldSection(k, mode, a, pos, prev).value.1;
    if mode == 1 {
      assert a[pos] == a[..q][pos] == b[..q][pos] == b[pos];
    } else if mode == 2 {
      var v, w := LE(a[pos..]), LE(b[pos..]);
      var left := 8 * (|a| - pos);
      var d := Parse(v, left, MaxCode(k)).value;
      ParseLeft(v, left, MaxCode(k));
      SlicesAgree(a, b, pos, q);
      LowLow(v, left - d.left, 8 * (q - pos));
      LowLow(w, left - d.left, 8 * (q - pos));
      DescriptionLocal(v, left, w, 8 * (|b| - pos), MaxCode(k));
    }
  }

  /** So a section is what it was, wherever its bytes come up again. */
  lemma SectionLocal(a: seq<byte>, prev: Three<Option<FieldTable>>, b: seq<byte>, prev': Three<Option<FieldTable>>)
    requires Section(a, prev).Ok?
    requires prev' == prev || (LlMode(a[0]) < 3 && OfMode(a[0]) < 3 && MlMode(a[0]) < 3)
    requires Section(a, prev).value.1 <= |b| && a[..Section(a, prev).value.1] == b[..Section(a, prev).value.1]
    ensures Section(b, prev') == Section(a, prev)
  {
    hide FieldSection, LlMode, OfMode, MlMode;
    var n := Section(a, prev).value.1;
    var x, y := a[1..], b[1..];
    assert a[0] == a[..n][0] == b[..n][0] == b[0];
    var (ll, p1) := FieldSection(LiteralLength, LlMode(a[0]), x, 0, prev.ll).value;
    var (of, p2) := FieldSection(OffsetCode, OfMode(a[0]), x, p1, prev.of).value;
    var (ml, p3) := FieldSection(MatchLength, MlMode(a[0]), x, p2, prev.ml).value;
    assert x[..p3] == a[..n][1..] && y[..p3] == b[..n][1..];
    assert x[..p2] == x[..p3][..p2] && y[..p2] == y[..p3][..p2];
    assert x[..p1] == x[..p3][..p1] && y[..p1] == y[..p3][..p1];
    FieldLocal(LiteralLength, LlMode(a[0]), x, 0, prev.ll, y, prev'.ll);
    FieldLocal(OffsetCode, OfMode(a[0]), x, p1, prev.of, y, prev'.of);
    FieldLocal(MatchLength, MlMode(a[0]), x, p2, prev.ml, y, prev'.ml);
  }
}
