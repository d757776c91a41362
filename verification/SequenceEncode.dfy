/** The encoder's sequences sections: counts, normalized distributions, the mode
    byte with its headers, and the bitstream. */
module SequenceEncode {
  import opened Arith
  import opened Bits
  import opened Wrappers
  import opened FseSpread
  import opened SeqCodes
  import opened SeqStream
  import opened TableSection
  import opened EncoderTables
  import opened SeqWriter
  import opened BlockHeaders

  // ----- code counts -----

  function CodeOf(k: Kind, p: PackedSeq): nat {
    match k case LiteralLength => p.llC case MatchLength => p.mlC case OffsetCode => p.ofC
  }

  function CodeCount(k: Kind, p: seq<PackedSeq>, n: nat, code: nat): nat
    requires n <= |p|
  {
    if n == 0 then 0 else CodeCount(k, p, n - 1, code) + (if CodeOf(k, p[n - 1]) == code then 1 else 0)
  }

  lemma {:induction false} Counted(k: Kind, p: seq<PackedSeq>, n: nat, i: nat)
    requires i < n <= |p|
    ensures CodeCount(k, p, n, CodeOf(k, p[i])) > 0
  {
    if i < n - 1 {
      Counted(k, p, n - 1, i);
    }
  }

  ghost predicate CountsOf(k: Kind, freqs: seq<nat>, p: seq<PackedSeq>) {
    |freqs| == MaxCode(k) + 1 && forall code: nat :: code < |freqs| ==> freqs[code] == CodeCount(k, p, |p|, code)
  }

  method CountCodes(k: Kind, p: seq<PackedSeq>) returns (freqs: seq<nat>)
    requires forall i :: 0 <= i < |p| ==> CodeOf(k, p[i]) <= MaxCode(k)
    ensures CountsOf(k, freqs, p)
  {
    freqs := seq(MaxCode(k) + 1, _ => 0);
    for i: nat := 0 to |p|
      invariant |freqs| == MaxCode(k) + 1
      invariant forall code: nat :: code < |freqs| ==> freqs[code] == CodeCount(k, p, i, code)
    {
      var code := CodeOf(k, p[i]);
      freqs := freqs[code := freqs[code] + 1];
    }
  }

  /** The last counted code, or 0. */
  method TopCode(freqs: seq<nat>) returns (top: nat)
    requires |freqs| > 0
    ensures top < |freqs| && forall s :: top < s < |freqs| ==> freqs[s] == 0
    ensures freqs[top] > 0 || top == 0
  {
    top := |freqs| - 1;
    while top > 0 && freqs[top] == 0
      invariant top < |freqs| && forall s :: top < s < |freqs| ==> freqs[s] == 0
    {
      top := top - 1;
    }
  }

  // ----- normalization -----

  function Sum(freqs: seq<nat>, n: nat): nat
    requires n <= |freqs|
  {
    if n == 0 then 0 else Sum(freqs, n - 1) + freqs[n - 1]
  }

  method SumOf(freqs: seq<nat>) returns (total: nat)
    ensures total == Sum(freqs, |freqs|)
  {
    total := 0;
    for i: nat := 0 to |freqs|
      invariant total == Sum(freqs, i)
    {
      total := total + freqs[i];
    }
  }

  lemma {:induction false} NoneCounted(freqs: seq<nat>, n: nat)
    requires n <= |freqs| && forall i :: 0 <= i < n ==> freqs[i] == 0
    ensures Sum(freqs, n) == 0
  {
    if n > 0 {
      NoneCounted(freqs, n - 1);
    }
  }

  lemma {:induction false} TotalUpdate(dist: seq<int>, j: nat, x: int, n: nat)
    requires j < |dist| && n <= |dist|
    ensures TotalCells(dist[j := x], n) == TotalCells(dist, n) + (if j < n then Cells(x) - Cells(dist[j]) else 0)
  {
    if n > 0 {
      TotalUpdate(dist, j, x, n - 1);
    }
  }

  lemma {:induction false} NoCells(dist: seq<int>, i: nat, n: nat)
    requires i <= n <= |dist| && forall j :: i <= j < n ==> dist[j] == 0
    ensures TotalCells(dist, n) == TotalCells(dist, i)
  {
    if i < n {
      NoCells(dist, i, n - 1);
    }
  }

  /** A positive probability is a whole cell. */
  lemma WholeCell(dist: seq<int>, log: nat, j: nat)
    requires Fills(dist, log) && j < |dist| && dist[j] > 0
    ensures HasWholeCell(dist, log)
  {
    CellsSplit(dist, |dist|);
    LayoutPrefix(dist, j + 1, |dist|);
    assert |Repeat(j, Positive(dist[j]))| > 0;
  }

  /** The most frequent symbol, the first of them. */
  method Largest(freqs: seq<nat>) returns (largest: nat)
    requires |freqs| > 0
    ensures largest < |freqs| && forall i :: 0 <= i < |freqs| ==> freqs[i] <= freqs[largest]
  {
    largest := 0;
    var most := 0;
    for i: nat := 0 to |freqs|
      invariant largest < |freqs| && most <= freqs[largest] && forall j :: 0 <= j < i ==> freqs[j] <= most
    {
      if freqs[i] > most {
        most := freqs[i];
        largest := i;
      }
    }
  }

  /** The probability given to a symbol: its share, at least "less than one" and
      at most what is left. */
  function Share(freq: nat, size: nat, total: nat, left: nat): (p: int)
    requires total > 0 && left > 0
    ensures p != 0 && p >= -1 && Cells(p) <= left
  {
    if freq * size / total < 1 then -1 else Min(freq * size / total, left)
  }

  /** Counts become a distribution that fills its table, with a whole cell for
      the most frequent symbol and no cell for one that does not occur. */
  method NormalizeCounts(freqs: seq<nat>, log: nat) returns (dist: seq<int>)
    ensures |dist| == |freqs|
    ensures Sum(freqs, |freqs|) == 0 ==> forall i :: 0 <= i < |dist| ==> dist[i] == 0
    ensures Sum(freqs, |freqs|) > 0 ==> Fills(dist, log) && HasWholeCell(dist, log)
    ensures forall i :: 0 <= i < |dist| && dist[i] != 0 ==> freqs[i] > 0
  {
    var total := SumOf(freqs);
    dist := seq(|freqs|, _ => 0);
    if total == 0 {
      return;
    }
    var size := Pow2(log);
    var largest: nat := Largest(freqs);
    if freqs[largest] == 0 {
      NoneCounted(freqs, |freqs|);
    }
    var distributed: nat, i: nat := 0, 0;
    NoCells(dist, 0, |dist|);
    while i < |freqs| && distributed < size - 1
      invariant i <= |freqs| == |dist| && distributed <= size - 1
      invariant dist[largest] == 0 && forall j :: i <= j < |dist| ==> dist[j] == 0
      invariant forall j :: 0 <= j < |dist| ==> dist[j] >= -1 && (dist[j] != 0 ==> freqs[j] > 0)
      invariant TotalCells(dist, |dist|) == distributed
    {
      if freqs[i] > 0 && i != largest {
        var p := Share(freqs[i], size, total, size - 1 - distributed);
        TotalUpdate(dist, i, p, |dist|);
        dist := dist[i := p];
        distributed := distributed + Cells(p);
      }
      i := i + 1;
    }
    TotalUpdate(dist, largest, size - distributed, |dist|);
    dist := dist[largest := size - distributed];
    WholeCell(dist, log, largest);
  }

  // ----- one field's table -----

  /** Bits of `x` without leading zeros. */
  function BitWidth(x: nat): nat {
    if x == 0 then 0 else HighBit(x) + 1
  }

  /** The accuracy log wanted for so many sequences and codes. */
  function OptimalTableLog(maxLog: nat, numSeq: nat, maxSymbol: nat): (log: nat)
    requires maxLog >= 5
    ensures 5 <= log <= maxLog
  {
    if numSeq <= 1 then 5
    else
      var w := BitWidth(numSeq - 1);
      var minBits := if maxSymbol > 0 then BitWidth(maxSymbol) + 2 else 0;
      Min(Max(Max(if w >= 2 then w - 2 else 0, 5), minBits), maxLog)
  }

  /** The codes that occur, up to `top`: how many, and the last. */
  method Distinct(freqs: seq<nat>, top: nat) returns (distinct: nat, last: nat)
    requires top < |freqs|
    ensures last <= top
    ensures distinct <= 1 ==> forall s: nat :: s <= top && freqs[s] > 0 ==> s == last
    ensures distinct > 1 ==> exists s: nat :: s <= top && freqs[s] > 0
  {
    distinct, last := 0, 0;
    for s: nat := 0 to top + 1
      invariant last <= top
      invariant distinct == 0 ==> forall j: nat :: j < s ==> freqs[j] == 0
      invariant distinct > 0 ==> freqs[last] > 0
      invariant distinct <= 1 ==> forall j: nat :: j < s && freqs[j] > 0 ==> j == last
    {
      if freqs[s] > 0 {
        distinct := distinct + 1;
        last := s;
      }
    }
  }

  lemma {:induction false} SomeCounted(freqs: seq<nat>, n: nat, i: nat)
    requires i < n <= |freqs| && freqs[i] > 0
    ensures Sum(freqs, n) > 0
  {
    if i < n - 1 {
      SomeCounted(freqs, n - 1, i);
    }
  }

  /** Every counted code has a cell of the field. */
  ghost predicate Covers(f: Field, freqs: seq<nat>) {
    forall code: nat :: code < |freqs| && freqs[code] > 0 ==> SeqStream.Usable(f, code)
  }

  /** A table with a description, if every counted code gets a cell. */
  method DescribedTable(k: Kind, freqs: seq<nat>, top: nat, log: nat, ghost prev: Option<FieldTable>)
    returns (ok: bool, header: seq<byte>, coder: Coder, ghost f: Field)
    requires |freqs| == MaxCode(k) + 1 && top <= MaxCode(k) && forall s :: top < s < |freqs| ==> freqs[s] == 0
    requires 5 <= log <= MaxLog(k) && exists s: nat :: s <= top && freqs[s] > 0
    ensures ok ==> Announces(k, 2, header, f, prev) && FieldReadyToCode(k, f) && f.coder == coder && Covers(f, freqs)
  {
    hide Announces, FieldReadyToCode, SeqStream.Usable, HasWholeCell, Fills;
    ok, header, coder, f := false, [], None, RleField(k, 0);
    var counted := freqs[..top + 1];
    ghost var some: nat :| some <= top && freqs[some] > 0;
    SomeCounted(counted, top + 1, some);
    var dist := NormalizeCounts(counted, log);
    for s: nat := 0 to top + 1
      invariant forall j: nat :: j < s && counted[j] > 0 ==> dist[j] != 0
    {
      if counted[s] > 0 && dist[s] == 0 {
        return;
      }
    }
    var t;
    header, t, f := DescribedField(k, dist, log, prev);
    ok, coder := true, Some(t);
  }

  /** A custom table for counted codes: one code, or a description. It may find
      none, when the codes are too many for the largest table. */
  method BuildTableEnc(k: Kind, freqs: seq<nat>, top: nat, n: nat, ghost prev: Option<FieldTable>)
    returns (ok: bool, mode: nat, header: seq<byte>, coder: Coder, ghost f: Field)
    requires |freqs| == MaxCode(k) + 1 && top <= MaxCode(k) && forall s :: top < s < |freqs| ==> freqs[s] == 0
    ensures ok ==> 1 <= mode <= 2 && Announces(k, mode, header, f, prev) && FieldReadyToCode(k, f) && f.coder == coder
    ensures ok ==> Covers(f, freqs)
  {
    hide Announces, FieldReadyToCode, SeqStream.Usable, HasWholeCell;
    ok, mode, header, coder := false, 1, [], None;
    var distinct, last := Distinct(freqs, top);
    f := RleField(k, last);
    if distinct <= 1 {
      RleAnnounces(k, last, prev);
      return true, 1, [last as byte], None, f;
    }
    var log := Max(OptimalTableLog(MaxLog(k), n, top), BitWidth(distinct + 1));
    if log > MaxLog(k) {
      return;
    }
    ok, header, coder, f := DescribedTable(k, freqs, top, log, prev);
    mode := 2;
  }

  // ----- the section's header -----

  ghost function ThreeOf(f: Fields): Three<FieldTable> {
    Three(TableOfField(f.ll), TableOfField(f.of), TableOfField(f.ml))
  }

  /** A mode byte with headers tells the decoder of three tables, and the encoder
      has their coders. */
  ghost predicate AnnouncesAll(header: seq<byte>, f: Fields, prev: Three<Option<FieldTable>>) {
    FieldsLinked(f) && Section(header, prev) == Ok((ThreeOf(f), |header|))
  }

  lemma AnnouncedBefore(header: seq<byte>, f: Fields, prev: Three<Option<FieldTable>>, rest: seq<byte>)
    requires AnnouncesAll(header, f, prev)
    ensures Section(header + rest, prev) == Ok((ThreeOf(f), |header|))
  {
    hide Section;
    assert (header + rest)[..|header|] == header == header[..|header|];
    SectionLocal(header, prev, header + rest, prev);
  }

  function ModeByte(ll: nat, of: nat, ml: nat): byte
    requires ll < 4 && of < 4 && ml < 4
  {
    64 * ll + 16 * of + 4 * ml
  }

  lemma ModesRead(ll: nat, of: nat, ml: nat)
    requires ll < 4 && of < 4 && ml < 4
    ensures var b := ModeByte(ll, of, ml); b % 4 == 0 && LlMode(b) == ll && OfMode(b) == of && MlMode(b) == ml
  {
    var b := ModeByte(ll, of, ml);
    assert b / 16 == 4 * ll + of && b / 4 == 16 * ll + 4 * of + ml;
  }

  function SectionHeader(modes: Three<nat>, headers: Three<seq<byte>>): seq<byte>
    requires modes.ll < 4 && modes.of < 4 && modes.ml < 4
  {
    [ModeByte(modes.ll, modes.of, modes.ml)] + headers.ll + headers.of + headers.ml
  }

  lemma ThreeParts<T>(a: seq<T>, b: seq<T>, c: seq<T>)
    ensures var x := a + b + c; var p := |a| + |b|;
      x[0..|a|] == a && x[|a|..p] == b && x[p..p + |c|] == c
  {
  }

  lemma HeadersAnnounce(modes: Three<nat>, headers: Three<seq<byte>>, f: Fields, prev: Three<Option<FieldTable>>)
    requires Announces(LiteralLength, modes.ll, headers.ll, f.ll, prev.ll) && FieldReadyToCode(LiteralLength, f.ll)
    requires Announces(OffsetCode, modes.of, headers.of, f.of, prev.of) && FieldReadyToCode(OffsetCode, f.of)
    requires Announces(MatchLength, modes.ml, headers.ml, f.ml, prev.ml) && FieldReadyToCode(MatchLength, f.ml)
    ensures modes.ll < 4 && modes.of < 4 && modes.ml < 4
    ensures AnnouncesAll(SectionHeader(modes, headers), f, prev)
  {
    hide FieldSection, Linked, CoderReady, ModeByte, LlMode, OfMode, MlMode;
    var header := SectionHeader(modes, headers);
    var x := headers.ll + headers.of + headers.ml;
    var p1, p2 := |headers.ll|, |headers.ll| + |headers.of|;
    assert header == [ModeByte(modes.ll, modes.of, modes.ml)] + x;
    ThreeParts(headers.ll, headers.of, headers.ml);
    ModesRead(modes.ll, modes.of, modes.ml);
    AnnouncedAt(LiteralLength, modes.ll, headers.ll, f.ll, prev.ll, x, 0);
    AnnouncedAt(OffsetCode, modes.of, headers.of, f.of, prev.of, x, p1);
    AnnouncedAt(MatchLength, modes.ml, headers.ml, f.ml, prev.ml, x, p2);
  }

  // ----- whole sections -----

  /** A section's bytes for packed sequences, coded with `f`. */
  ghost predicate IsSection(bytes: seq<byte>, p: seq<PackedSeq>, header: seq<byte>, stream: seq<byte>, f: Fields,
                            prev: Three<Option<FieldTable>>) {
    && AnnouncesAll(header, f, prev) && AllPacked(p, f)
    && bytes == CountBytes(|p|) + header + stream && Marked(stream) && Unmark(stream) == Stream(p, f)
  }

  /** Well formed, with an offset code up to `top`. */
  ghost predicate WellPacked(p: PackedSeq, top: nat) {
    WellFormed(p) && p.ofC <= top <= OF_MAX
  }

  ghost predicate AllWell(p: seq<PackedSeq>, top: nat) {
    |p| > 0 && forall i :: 0 <= i < |p| ==> WellPacked(p[i], top)
  }

  /** The section of given coders. */
  method WriteSection(p: seq<PackedSeq>, header: seq<byte>, c: Coders, scratch: seq<byte>, ghost f: Fields,
                      ghost prev: Three<Option<FieldTable>>)
    returns (bytes: seq<byte>, ghost stream: seq<byte>)
    requires AnnouncesAll(header, f, prev) && c == CodersOf(f) && AllPacked(p, f)
    ensures IsSection(bytes, p, header, stream, f, prev)
  {
    hide AnnouncesAll, Marked, Unmark, AllPacked, FieldsLinked;
    assert FieldsLinked(f) by { AnnouncedLinked(header, f, prev); }
    var s := EncodeBitstream(p, c, scratch, f);
    bytes := CountBytes(|p|) + header + s;
    stream := s;
  }

  lemma AnnouncedLinked(header: seq<byte>, f: Fields, prev: Three<Option<FieldTable>>)
    requires AnnouncesAll(header, f, prev)
    ensures FieldsLinked(f)
  {
  }

  /** The predefined tables code everything up to offset code 28. */
  method EncodeSeqPredefined(p: seq<PackedSeq>, scratch: seq<byte>, ghost prev: Three<Option<FieldTable>>)
    returns (bytes: seq<byte>, ghost stream: seq<byte>, ghost f: Fields)
    requires AllWell(p, 28)
    ensures IsSection(bytes, p, [0], stream, f, prev)
  {
    hide IsPredefined, WellPacked, IsSection, AnnouncesAll;
    var ll, of, ml;
    ghost var fl, fo, fm;
    ll, fl := PredefinedField(LiteralLength);
    ml, fm := PredefinedField(MatchLength);
    of, fo := PredefinedField(OffsetCode);
    f := Fields(fl, fo, fm);
    PredefinedSection(f, prev);
    PredefinedCodes(p, f);
    bytes, stream := WriteSection(p, [0], Coders(Some(ll), Some(of), Some(ml)), scratch, f, prev);
  }

  /** The mode byte alone. */
  lemma NoHeaders(mode: nat)
    requires mode < 4
    ensures SectionHeader(Three(mode, mode, mode), Three([], [], [])) == [84 * mode as byte]
  {
  }

  lemma PredefinedSection(f: Fields, prev: Three<Option<FieldTable>>)
    requires IsPredefined(f.ll, LiteralLength) && IsPredefined(f.of, OffsetCode) && IsPredefined(f.ml, MatchLength)
    ensures AnnouncesAll([0], f, prev) && FieldsLinked(f)
  {
    hide IsPredefined, Announces, FieldReadyToCode, AnnouncesAll, SectionHeader, FieldsLinked;
    PredefinedAnnounces(LiteralLength, f.ll, prev.ll);
    PredefinedAnnounces(OffsetCode, f.of, prev.of);
    PredefinedAnnounces(MatchLength, f.ml, prev.ml);
    HeadersAnnounce(Three(0, 0, 0), Three([], [], []), f, prev);
    NoHeaders(0);
    AnnouncedLinked([0], f, prev);
  }

  lemma PredefinedCodes(p: seq<PackedSeq>, f: Fields)
    requires IsPredefined(f.ll, LiteralLength) && IsPredefined(f.of, OffsetCode) && IsPredefined(f.ml, MatchLength)
    requires FieldsLinked(f) && AllWell(p, 28)
    ensures AllPacked(p, f)
  {
    hide IsPredefined, FieldsLinked, SeqStream.Usable, Pow2;
    forall i | 0 <= i < |p| ensures Packed(p[i], f) {
      assert WellPacked(p[i], 28);
      DefaultUsable(f.ll, LiteralLength, p[i].llC);
      DefaultUsable(f.of, OffsetCode, p[i].ofC);
      DefaultUsable(f.ml, MatchLength, p[i].mlC);
    }
  }

  /** Repeat mode: the tables in force, which must have a cell for every code. */
  method EncodeSeqRepeat(p: seq<PackedSeq>, c: Coders, scratch: seq<byte>, ghost f: Fields, ghost prev: Three<Option<FieldTable>>)
    returns (bytes: seq<byte>, ghost stream: seq<byte>)
    requires FieldsLinked(f) && CodersOf(f) == c && AllPacked(p, f)
    requires prev == Three(Some(TableOfField(f.ll)), Some(TableOfField(f.of)), Some(TableOfField(f.ml)))
    ensures IsSection(bytes, p, [252], stream, f, prev)
  {
    hide FieldsLinked, AllPacked, IsSection, AnnouncesAll;
    RepeatSection(f, prev);
    bytes, stream := WriteSection(p, [252], c, scratch, f, prev);
  }

  lemma RepeatSection(f: Fields, prev: Three<Option<FieldTable>>)
    requires FieldsLinked(f)
    requires prev == Three(Some(TableOfField(f.ll)), Some(TableOfField(f.of)), Some(TableOfField(f.ml)))
    ensures AnnouncesAll([252], f, prev)
  {
    hide Announces, Linked, CoderReady, SectionHeader;
    RepeatAnnounces(LiteralLength, f.ll);
    RepeatAnnounces(OffsetCode, f.of);
    RepeatAnnounces(MatchLength, f.ml);
    HeadersAnnounce(Three(3, 3, 3), Three([], [], []), f, prev);
    NoHeaders(3);
  }

  /** Custom tables of the codes' own counts. The estimate says whether they
      seem worth trying. */
  method EncodeSeqCustom(p: seq<PackedSeq>, scratch: seq<byte>, worthTrying: bool, ghost prev: Three<Option<FieldTable>>)
    returns (ok: bool, bytes: seq<byte>, ghost header: seq<byte>, ghost stream: seq<byte>, ghost f: Fields)
    requires AllWell(p, OF_MAX)
    ensures ok ==> IsSection(bytes, p, header, stream, f, prev)
  {
    hide WellPacked, IsSection, AnnouncesAll, Announces, FieldReadyToCode, Covers;
    ok, bytes, header, stream := false, [], [], [];
    f := Fields(RleField(LiteralLength, 0), RleField(OffsetCode, 0), RleField(MatchLength, 0));
    InRange(p, OF_MAX);
    var llFreq := CountCodes(LiteralLength, p);
    var mlFreq := CountCodes(MatchLength, p);
    var ofFreq := CountCodes(OffsetCode, p);
    var llMax := TopCode(llFreq);
    var mlMax := TopCode(mlFreq);
    var ofMax := TopCode(ofFreq);
    if !worthTrying {
      return;
    }
    var llMode, ofMode, mlMode, llHeader, ofHeader, mlHeader, ll, of, ml;
    ghost var fl, fo, fm;
    ok, llMode, llHeader, ll, fl := BuildTableEnc(LiteralLength, llFreq, llMax, |p|, prev.ll);
    if !ok {
      return;
    }
    ok, ofMode, ofHeader, of, fo := BuildTableEnc(OffsetCode, ofFreq, ofMax, |p|, prev.of);
    if !ok {
      return;
    }
    ok, mlMode, mlHeader, ml, fm := BuildTableEnc(MatchLength, mlFreq, mlMax, |p|, prev.ml);
    if !ok {
      return;
    }
    f := Fields(fl, fo, fm);
    var modes, headers := Three(llMode, ofMode, mlMode), Three(llHeader, ofHeader, mlHeader);
    HeadersAnnounce(modes, headers, f, prev);
    var h := SectionHeader(modes, headers);
    header := h;
    AnnouncedLinked(h, f, prev);
    CoveredCodes(p, f, Three(llFreq, ofFreq, mlFreq));
    bytes, stream := WriteSection(p, h, Coders(ll, of, ml), scratch, f, prev);
  }

  lemma InRange(p: seq<PackedSeq>, top: nat)
    requires AllWell(p, top)
    ensures forall i, k: Kind :: 0 <= i < |p| ==> CodeOf(k, p[i]) <= MaxCode(k)
  {
    forall i, k: Kind | 0 <= i < |p| ensures CodeOf(k, p[i]) <= MaxCode(k) {
      assert WellPacked(p[i], top);
    }
  }

  lemma CoveredCode(k: Kind, f: Field, freqs: seq<nat>, p: seq<PackedSeq>, i: nat)
    requires CountsOf(k, freqs, p) && Covers(f, freqs) && i < |p| && CodeOf(k, p[i]) <= MaxCode(k)
    ensures SeqStream.Usable(f, CodeOf(k, p[i]))
  {
    hide SeqStream.Usable;
    Counted(k, p, |p|, i);
  }

  lemma CoveredCodes(p: seq<PackedSeq>, f: Fields, freqs: Three<seq<nat>>)
    requires FieldsLinked(f) && AllWell(p, OF_MAX)
    requires CountsOf(LiteralLength, freqs.ll, p) && CountsOf(OffsetCode, freqs.of, p) && CountsOf(MatchLength, freqs.ml, p)
    requires Covers(f.ll, freqs.ll) && Covers(f.of, freqs.of) && Covers(f.ml, freqs.ml)
    ensures AllPacked(p, f)
  {
    hide FieldsLinked, SeqStream.Usable, Pow2, CountsOf, Covers;
    forall i: nat | i < |p| ensures Packed(p[i], f) {
      assert WellPacked(p[i], OF_MAX);
      CoveredCode(LiteralLength, f.ll, freqs.ll, p, i);
      CoveredCode(OffsetCode, f.of, freqs.of, p, i);
      CoveredCode(MatchLength, f.ml, freqs.ml, p, i);
    }
  }
}
