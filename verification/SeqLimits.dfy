/** What tables can code at all: a list of sequences has a bitstream for given
    tables exactly when every one of its codes has a cell in them. The encoder
    codes with a dictionary's tables without checking it. */
module SeqLimits {
  import opened Arith
  import opened Bits
  import opened Wrappers
  import opened FseTable
  import opened SeqCodes
  import opened SeqStream
  import FseSpread

  // ----- codes stand for disjoint ranges -----

  ghost predicate InRange(x: Extra, value: nat) {
    x.base <= value < x.base + Pow2(x.bits)
  }

  /** A code's range ends where the next one's begins. */
  lemma NextRange(k: Kind, code: nat)
    requires code < MaxCode(k)
    ensures ExtraOf(k, code).base + Pow2(ExtraOf(k, code).bits) == ExtraOf(k, code + 1).base
  {
    match k {
      case OffsetCode =>
        Pow2Step(code);
      case LiteralLength =>
        LlNext(code);
      case MatchLength =>
        MlNext(code);
    }
  }

  lemma LlNext(code: nat)
    requires code < LL_MAX
    ensures LlExtra(code).base + Pow2(LlExtra(code).bits) == LlExtra(code + 1).base
  {
    Pow2Values();
    Pow2Large();
  }

  lemma MlNext(code: nat)
    requires code < ML_MAX
    ensures MlExtra(code).base + Pow2(MlExtra(code).bits) == MlExtra(code + 1).base
  {
    Pow2Values();
    Pow2Large();
  }

  lemma {:induction false} RangesRise(k: Kind, a: nat, b: nat)
    requires a < b <= MaxCode(k)
    ensures ExtraOf(k, a).base + Pow2(ExtraOf(k, a).bits) <= ExtraOf(k, b).base
  {
    hide ExtraOf, Pow2;
    NextRange(k, b - 1);
    if a < b - 1 {
      RangesRise(k, a, b - 1);
    }
  }

  /** So a value has one code. */
  lemma OneCode(k: Kind, a: nat, b: nat, value: nat)
    requires a <= MaxCode(k) && b <= MaxCode(k) && InRange(ExtraOf(k, a), value) && InRange(ExtraOf(k, b), value)
    ensures a == b
  {
    hide ExtraOf, Pow2;
    if a < b {
      RangesRise(k, a, b);
    } else if b < a {
      RangesRise(k, b, a);
    }
  }

  // ----- what a decoder can return -----

  function FieldOf(f: Fields, k: Kind): Field {
    match k case LiteralLength => f.ll case MatchLength => f.ml case OffsetCode => f.of
  }

  function PartOf(raw: RawSeq, k: Kind): nat {
    match k case LiteralLength => raw.ll case MatchLength => raw.ml case OffsetCode => raw.offsetValue
  }

  function PackedCode(p: PackedSeq, k: Kind): nat {
    match k case LiteralLength => p.llC case MatchLength => p.mlC case OffsetCode => p.ofC
  }

  lemma {:induction false} Occurs(syms: seq<nat>, n: nat, i: nat)
    requires i < n <= |syms|
    ensures FseSpread.Occurrences(syms, n, syms[i]) > 0
  {
    if i < n - 1 {
      Occurs(syms, n - 1, i);
    }
  }

  /** A row belongs to a code with a cell. */
  lemma RowHasCell(f: Field, i: nat)
    requires Linked(f) && i < |f.table|
    ensures i < |f.syms| && Usable(f, f.syms[i]) && f.table[i].extra == ExtraOf(f.kind, f.syms[i])
  {
    RowMatches(f, |f.syms|, i);
    Occurs(f.syms, |f.syms|, i);
  }

  lemma OneInRange(d: DecState, t: SeqTables, update: bool)
    requires TablesReady(t) && InTables(d, t) && DecodeOne(d, t, update).Some?
    ensures var raw := DecodeOne(d, t, update).value.0;
      && InRange(t.ll[d.ll].extra, raw.ll) && InRange(t.ml[d.ml].extra, raw.ml)
      && InRange(t.of[d.of].extra, raw.offsetValue)
  {
    hide TablesReady, Pop, ReadStates;
  }

  /** Every decoded part lies in the range of a code with a cell. */
  lemma {:induction false} DecodedCell(d: DecState, f: Fields, n: nat, i: nat, k: Kind) returns (code: nat)
    requires FieldsLinked(f) && TablesReady(TablesOf(f)) && InTables(d, TablesOf(f)) && n > 0
    requires DecodeMany(d, TablesOf(f), n).Some? && i < n
    ensures Usable(FieldOf(f, k), code) && InRange(ExtraOf(k, code), PartOf(DecodeMany(d, TablesOf(f), n).value[i], k))
    decreases n
  {
    hide TablesReady, Linked, Usable, ExtraOf, DecodeOne, InRange;
    var t := TablesOf(f);
    var (raw, d') := DecodeOne(d, t, n > 1).value;
    if i == 0 {
      OneInRange(d, t, n > 1);
      var row := match k case LiteralLength => d.ll case MatchLength => d.ml case OffsetCode => d.of;
      RowHasCell(FieldOf(f, k), row);
      code := FieldOf(f, k).syms[row];
    } else {
      code := DecodedCell(d', f, n - 1, i - 1, k);
    }
  }

  lemma StreamCell(b: BitStack, f: Fields, n: nat, i: nat, k: Kind) returns (code: nat)
    requires FieldsLinked(f) && TablesReady(TablesOf(f)) && b.Valid() && n > 0
    requires DecodeStream(b, TablesOf(f), n).Some? && i < n
    ensures Usable(FieldOf(f, k), code) && InRange(ExtraOf(k, code), PartOf(DecodeStream(b, TablesOf(f), n).value[i], k))
  {
    hide TablesReady, FieldsLinked, Usable, ExtraOf, DecodeMany, OpenStates;
    code := DecodedCell(OpenStates(b, TablesOf(f)).value, f, n, i, k);
  }

  // ----- exactly what can be coded -----

  lemma ValueInRange(p: PackedSeq, k: Kind)
    requires WellFormed(p)
    ensures InRange(ExtraOf(k, PackedCode(p, k)), PartOf(ValueOf(p), k))
  {
    hide Low, Shr, Pow2, LlExtra, MlExtra, OfExtra;
    var llB, mlB, ofB := LlExtra(p.llC).bits, MlExtra(p.mlC).bits, OfExtra(p.ofC).bits;
    ShrBelow(p.extraBits, ofB, llB + mlB);
  }

  ghost predicate HasStream(p: seq<PackedSeq>, f: Fields, b: BitStack)
    requires TablesReady(TablesOf(f)) && CodesInRange(p)
  {
    |p| > 0 && b.Valid() && DecodeStream(b, TablesOf(f), |p|) == Some(Values(p, 0))
  }

  lemma {:induction false} ValuesAt(p: seq<PackedSeq>, k: nat, i: nat)
    requires k <= i < |p| && CodesInRange(p)
    ensures i - k < |Values(p, k)| && Values(p, k)[i - k] == ValueOf(p[i])
    decreases |p| - k
  {
    hide ValueOf;
    if k < i {
      ValuesAt(p, k + 1, i);
    }
  }

  /** A stream for the sequences exists only if their codes have cells. */
  lemma StreamNeedsCells(p: seq<PackedSeq>, f: Fields, b: BitStack, i: nat, k: Kind)
    requires FieldsLinked(f) && TablesReady(TablesOf(f)) && CodesInRange(p) && HasStream(p, f, b)
    requires i < |p| && WellFormed(p[i])
    ensures Usable(FieldOf(f, k), PackedCode(p[i], k))
  {
    hide TablesReady, Linked, ExtraOf, DecodeStream, Values, InRange, ValueOf;
    var code := StreamCell(b, f, |p|, i, k);
    ValuesAt(p, 0, i);
    ValueInRange(p[i], k);
    OneCode(k, code, PackedCode(p[i], k), PartOf(ValueOf(p[i]), k));
  }

  /** The condition under which tables, repeated or not, code the sequences: each
      code has a cell. Then the encoder's stream decodes to them, and otherwise no
      stream does. */
  lemma StreamExists(p: seq<PackedSeq>, f: Fields)
    requires FieldsLinked(f) && |p| > 0 && forall i :: 0 <= i < |p| ==> WellFormed(p[i])
    ensures TablesReady(TablesOf(f)) && CodesInRange(p)
    ensures AllPacked(p, f) <==> exists b: BitStack :: HasStream(p, f, b)
    ensures AllPacked(p, f) ==> HasStream(p, f, Stream(p, f))
  {
    hide Linked, DecodeStream, Values, Usable, Pow2, LlExtra, MlExtra, OfExtra, Stream, TablesReady;
    LinkedTablesReady(f);
    assert CodesInRange(p) by {
      forall i | 0 <= i < |p| ensures p[i].llC <= LL_MAX && p[i].mlC <= ML_MAX && p[i].ofC <= OF_MAX {
        assert WellFormed(p[i]);
      }
    }
    if AllPacked(p, f) {
      StreamRoundTrip(p, f);
      assert HasStream(p, f, Stream(p, f));
    }
    if b: BitStack :| HasStream(p, f, b) {
      forall i: nat | i < |p| ensures Packed(p[i], f) {
        assert WellFormed(p[i]);
        StreamNeedsCells(p, f, b, i, LiteralLength);
        StreamNeedsCells(p, f, b, i, OffsetCode);
        StreamNeedsCells(p, f, b, i, MatchLength);
      }
    }
  }
}
