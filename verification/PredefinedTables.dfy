/** The predefined decoding tables, state by state, as printed in Appendix A of
    RFC 8878. Beside the proof stands the walk of any distribution in plain
    arithmetic. */
module PredefinedTables {
  import opened Arith
  import opened StepWalk
  import opened FseSpread
  import opened FseTable
  import opened SeqCodes
  import opened SeqStream
  import opened TableSection

  // ----- the default distributions by number -----

  /** Symbols with whole cells come first, then the rare ones. */
  function Whole(k: Kind): nat {
    match k case LiteralLength => 32 case MatchLength => 46 case OffsetCode => 24
  }

  function Symbols(k: Kind): nat {
    match k case LiteralLength => 36 case MatchLength => 53 case OffsetCode => 29
  }

  function TableSize(k: Kind): nat {
    match k case OffsetCode => 32 case _ => 64
  }

  /** Cells of a symbol. */
  function Share(k: Kind, s: int): nat {
    match k
    case LiteralLength =>
      if s == 0 then 4 else if s == 1 || s == 25 then 3
      else if s < 13 || 16 <= s <= 26 then 2 else 1
    case MatchLength => if s == 1 then 4 else if s == 2 then 3 else if 3 <= s <= 8 then 2 else 1
    case OffsetCode => if 6 <= s <= 8 then 2 else 1
  }

  lemma DistIs(k: Kind)
    ensures |DefaultDist(k)| == Symbols(k) && Pow2(DefaultLog(k)) == TableSize(k)
    ensures forall s :: 0 <= s < Symbols(k) ==> DefaultDist(k)[s] == if s < Whole(k) then Share(k, s) else -1
    ensures forall s :: 0 <= s < Symbols(k) ==> Cells(DefaultDist(k)[s]) == Share(k, s)
  {
    Pow2Values();
  }

  /** The cells before a symbol's in the order of the walk. */
  function Start(k: Kind, s: nat): nat {
    match k
    case LiteralLength =>
      if s == 0 then 0 else if s == 1 then 4 else if s < 13 then 2 * s + 3 else if s < 16 then s + 16
      else if s < 26 then 2 * s else if s == 26 then 53 else s + 28
    case MatchLength =>
      if s == 0 then 0 else if s == 1 then 1 else if s == 2 then 5 else if s < 9 then 2 * s + 2 else s + 11
    case OffsetCode => if s < 6 then s else if s < 9 then 2 * s - 6 else s + 3
  }

  /** The last cell of the walk. */
  function Top(k: Kind): nat {
    match k case LiteralLength => 59 case MatchLength => 56 case OffsetCode => 26
  }


  lemma {:induction false} LayoutStart(k: Kind, s: nat)
    requires s <= Whole(k)
    ensures s <= |DefaultDist(k)| && |Layout(DefaultDist(k), s)| == Start(k, s)
  {
    DistIs(k);
    hide DefaultDist, DefaultLog;
    if s > 0 {
      LayoutStart(k, s - 1);
    }
  }

  lemma {:induction false} RareTail(dist: seq<int>, whole: nat, s: nat)
    requires whole <= s <= |dist|
    requires forall i :: 0 <= i < s ==> (dist[i] == -1 <==> whole <= i)
    ensures |Rares(dist, s)| == s - whole
    ensures forall j :: 0 <= j < s - whole ==> Rares(dist, s)[j] == whole + j
  {
    if s > whole {
      RareTail(dist, whole, s - 1);
    } else if s > 0 {
      NoRares(dist, s);
    }
  }

  lemma DefaultRares(k: Kind)
    ensures HasWholeCell(DefaultDist(k), DefaultLog(k)) && Threshold(DefaultDist(k), DefaultLog(k)) == Top(k)
    ensures |DefaultDist(k)| == Symbols(k) && |Rares(DefaultDist(k), Symbols(k))| == Symbols(k) - Whole(k)
    ensures forall j :: 0 <= j < Symbols(k) - Whole(k) ==> Rares(DefaultDist(k), Symbols(k))[j] == Whole(k) + j
  {
    hide DefaultDist, DefaultLog, Rares;
    DistIs(k);
    RareTail(DefaultDist(k), Whole(k), Symbols(k));
  }

  // ----- the walk -----

  function Stride(k: Kind): nat {
    match k case OffsetCode => 23 case _ => 43
  }

  /** The step of the walk that comes to a cell. */
  function Turn(k: Kind, i: nat): nat {
    match k case OffsetCode => 7 * i % 32 case _ => 3 * i % 64
  }

  /** Cells of rare symbols that the walk has passed over before a step. */
  function Skips(k: Kind, t: nat): nat {
    match k
    case LiteralLength => if t <= 52 then 0 else if t <= 55 then 1 else if t <= 58 then 2 else if t <= 61 then 3 else 4
    case MatchLength =>
      if t <= 43 then 0 else if t <= 46 then 1 else if t <= 49 then 2 else if t <= 52 then 3
      else if t <= 55 then 4 else if t <= 58 then 5 else if t <= 61 then 6 else 7
    case OffsetCode =>
      if t <= 4 then 0 else if t <= 11 then 1 else if t <= 18 then 2 else if t <= 25 then 3 else if t <= 29 then 4 else 5
  }

  lemma TurnOf64(t: nat, p: nat)
    requires t < 64 && p == t * 43 % 64
    ensures 3 * p % 64 == t && p < 64
    ensures p >= 60 <==> t == 52 || t == 55 || t == 58 || t == 61
    ensures p >= 57 <==> t == 43 || t == 46 || t == 49 || t == 52 || t == 55 || t == 58 || t == 61
  {
    var q := t * 43 / 64;
    assert 3 * p == t + 64 * (2 * t - 3 * q);
  }

  lemma TurnOf32(t: nat, p: nat)
    requires t < 32 && p == t * 23 % 32
    ensures 7 * p % 32 == t && p < 32
    ensures p >= 27 <==> t == 4 || t == 11 || t == 18 || t == 25 || t == 29
  {
    var q := t * 23 / 32;
    assert 7 * p == t + 32 * (5 * t - 7 * q);
  }

  lemma WalkStep(k: Kind, t: nat)
    requires t < TableSize(k)
    ensures var p := Orbit(t, DefaultLog(k));
      p < TableSize(k) && p == t * Stride(k) % TableSize(k) && Turn(k, p) == t
      && Skips(k, t + 1) == Skips(k, t) + (if p <= Top(k) then 0 else 1)
  {
    hide Orbit, Pow2;
    DistIs(k);
    OrbitIs(t, DefaultLog(k));
    var p := Orbit(t, DefaultLog(k));
    if k == OffsetCode { TurnOf32(t, p); } else { TurnOf64(t, p); }
  }

  lemma {:induction false} VisitsTo(k: Kind, t: nat)
    requires t <= TableSize(k)
    ensures |Visits(t, DefaultLog(k), Top(k))| + Skips(k, t) == t
  {
    hide Orbit, Turn, Stride, DefaultLog, Pow2, Whole, Share;
    if t > 0 {
      VisitsTo(k, t - 1);
      WalkStep(k, t - 1);
    }
  }

  // ----- the symbol of a cell -----

  /** Which of the walk's cells this is. */
  function Visit(k: Kind, i: nat): int {
    Turn(k, i) - Skips(k, Turn(k, i))
  }

  lemma CellOf64(p: nat)
    requires p < 64
    ensures (3 * p % 64) * 43 % 64 == p
  {
    var q, t := 3 * p / 64, 3 * p % 64;
    assert t == 3 * p - 64 * q;
    assert t * 43 == p + 64 * (2 * p - 43 * q);
  }

  lemma CellOf32(p: nat)
    requires p < 32
    ensures (7 * p % 32) * 23 % 32 == p
  {
    var q, t := 7 * p / 32, 7 * p % 32;
    assert t == 7 * p - 32 * q;
    assert t * 23 == p + 32 * (5 * p - 23 * q);
  }

  lemma VisitAt(t: nat, log: nat, top: nat, n: nat)
    requires t < n && Orbit(t, log) <= top
    ensures |Visits(t, log, top)| < |Visits(n, log, top)|
    ensures Visits(n, log, top)[|Visits(t, log, top)|] == Orbit(t, log)
  {
    VisitsPrefix(t + 1, n, log, top);
  }

  /** The walk comes to the cell at its visit. */
  lemma AtCell(k: Kind, i: nat)
    requires i <= Top(k)
    ensures var v := Visits(Pow2(DefaultLog(k)), DefaultLog(k), Top(k));
      0 <= Visit(k, i) < |v| && v[Visit(k, i)] == i
  {
    hide *;
    var t := Turn(k, i);
    TurnBelow(k, i);
    DistIs(k);
    WalkStep(k, t);
    VisitsTo(k, t);
    VisitAt(t, DefaultLog(k), Top(k), TableSize(k));
    VisitIs(k, i);
  }

  lemma VisitIs(k: Kind, i: nat)
    ensures Visit(k, i) == Turn(k, i) - Skips(k, Turn(k, i))
  {
  }

  lemma TurnBelow(k: Kind, i: nat)
    requires i <= Top(k)
    ensures Turn(k, i) < TableSize(k) && Turn(k, i) * Stride(k) % TableSize(k) == i
  {
    if k == OffsetCode { CellOf32(i); } else { CellOf64(i); }
  }

  lemma DefaultIsSpread(k: Kind)
    ensures DefaultLog(k) >= 5 && Fills(DefaultDist(k), DefaultLog(k))
    ensures IsSpread(DefaultSyms(k), DefaultDist(k), DefaultLog(k))
  {
    DefaultFills(k);
  }

  lemma SpreadAt(syms: seq<nat>, dist: seq<int>, log: nat, n: nat)
    requires IsSpread(syms, dist, log) && n < |Layout(dist, |dist|)|
    ensures var v := Visits(Pow2(log), log, Threshold(dist, log));
      n < |v| && v[n] < |syms| && syms[v[n]] == Layout(dist, |dist|)[n]
  {
  }

  /** A cell of the walk has the symbol whose visits its own is one of. */
  lemma WalkedSymbol(k: Kind, i: nat, s: nat)
    requires i <= Top(k) && s < Whole(k) && Start(k, s) <= Visit(k, i) < Start(k, s) + Share(k, s)
    ensures i < |DefaultSyms(k)| && DefaultSyms(k)[i] == s
  {
    hide *;
    AtCell(k, i);
    LayoutStart(k, s);
    DefaultRares(k);
    DistIs(k);
    WholeBelow(k);
    PositiveIs(k, s);
    DefaultIsSpread(k);
    LayoutAt(DefaultDist(k), s, Visit(k, i) - Start(k, s));
    SpreadAt(DefaultSyms(k), DefaultDist(k), DefaultLog(k), Visit(k, i));
  }

  lemma WholeBelow(k: Kind)
    ensures Whole(k) < Symbols(k)
  {
  }

  lemma PositiveIs(k: Kind, s: nat)
    requires s < Whole(k)
    ensures s < |DefaultDist(k)| && Positive(DefaultDist(k)[s]) == Share(k, s)
  {
    DistIs(k);
    hide DefaultDist, DefaultLog;
  }

  lemma RareSymbol(k: Kind, i: nat)
    requires Top(k) < i < TableSize(k)
    ensures i < |DefaultSyms(k)| && DefaultSyms(k)[i] == Whole(k) + (TableSize(k) - 1 - i)
  {
    DefaultRares(k);
    DistIs(k);
    DefaultIsSpread(k);
    hide DefaultDist, DefaultLog, Layout, Visits, Pow2, DefaultSyms, Rares;
    var j := TableSize(k) - 1 - i;
    assert Rares(DefaultDist(k), |DefaultDist(k)|)[j] == Whole(k) + j;
  }

  // ----- the printed tables -----

  // A state's symbol and its number among its symbol's states, as a function
  // of the state.

  function LlSymbol(i: int): int {
    var t := i + i + i - (if i < 22 then 0 else if i < 43 then 64 else 128);
    if i >= 60 then 95 - i
    else if t < 4 then 0 else if t < 7 then 1 else if t < 29 then (t - 3) / 2
    else if t < 32 then t - 16 else if t < 50 then t / 2
    else if t < 54 then 25 else if t < 57 then 26 else if t < 58 then 27
    else if t < 61 then t - 31 else t - 32
  }

  function LlNumber(i: int): int {
    var t := i + i + i - (if i < 22 then 0 else if i < 43 then 64 else 128);
    if i >= 60 then 1
    else if t < 4 then (if i >= 43 then 7 else if i >= 22 then 6 else i + 4)
    else if t < 7 then (if i >= 44 then 5 else if i >= 23 then 4 else 3)
    else if t < 29 then (if i >= 43 || i == 25 || i == 27 || i == 29 then 3 else 2)
    else if t < 32 then 1
    else if t < 50 then (if i >= 43 || i == 32 || i == 34 || i == 36 then 3 else 2)
    else if t < 54 then (if i >= 39 then 5 else if i >= 38 then 4 else 3)
    else if t < 57 then (if i >= 40 then 3 else 2)
    else 1
  }

  function MlSymbol(i: int): int {
    var t := i + i + i - (if i < 22 then 0 else if i < 43 then 64 else 128);
    if i >= 57 then 109 - i
    else if t < 1 then 0 else if t < 5 then 1 else if t < 8 then 2 else if t < 20 then t / 2 - 1
    else if t < 44 then t - 11 else t - (t - 41) / 3 - 11
  }

  function MlNumber(i: int): int {
    var t := i + i + i - (if i < 22 then 0 else if i < 43 then 64 else 128);
    if i >= 57 || t < 1 then 1
    else if t < 5 then (if i >= 44 then 7 else if i >= 43 then 6 else if i >= 22 then 5 else 4)
    else if t < 8 then (if i >= 45 then 5 else if i >= 23 then 4 else 3)
    else if t < 20 then (if i >= 43 || i == 24 || i == 26 then 3 else 2)
    else 1
  }

  function OfSymbol(i: int): int {
    var t := i + i + i + i + i + i + i - (if i < 5 then 0 else if i < 10 then 32 else if i < 14 then 64 else if i < 19 then 96
      else if i < 23 then 128 else if i < 28 then 160 else 192);
    if i >= 27 then 55 - i
    else if t < 4 then t else if t < 7 then t - 1 else if t < 9 then 6 else if t < 11 then 7
    else if t < 14 then 8 else if t < 18 then t - 5 else if t < 25 then t - 6 else if t < 29 then t - 7 else t - 8
  }

  function OfNumber(i: int): int {
    if i == 15 || i == 20 || i == 24 then 3 else if i == 1 || i == 6 || i == 11 then 2 else 1
  }

  function SymbolOf(k: Kind, i: nat): int {
    match k case LiteralLength => LlSymbol(i) case MatchLength => MlSymbol(i) case OffsetCode => OfSymbol(i)
  }

  function NumberOf(k: Kind, i: nat): int {
    match k case LiteralLength => LlNumber(i) case MatchLength => MlNumber(i) case OffsetCode => OfNumber(i)
  }

  lemma LlVisits(i: nat)
    requires i <= 59
    ensures 0 <= LlSymbol(i) < Whole(LiteralLength)
    ensures Start(LiteralLength, LlSymbol(i)) <= Visit(LiteralLength, i) < Start(LiteralLength, LlSymbol(i)) + Share(LiteralLength, LlSymbol(i))
  {
    var t := i + i + i - (if i < 22 then 0 else if i < 43 then 64 else 128);
    assert Turn(LiteralLength, i) == t;
  }

  lemma MlVisits(i: nat)
    requires i <= 56
    ensures 0 <= MlSymbol(i) < Whole(MatchLength)
    ensures Start(MatchLength, MlSymbol(i)) <= Visit(MatchLength, i) < Start(MatchLength, MlSymbol(i)) + Share(MatchLength, MlSymbol(i))
  {
    var t := i + i + i - (if i < 22 then 0 else if i < 43 then 64 else 128);
    assert Turn(MatchLength, i) == t;
  }

  lemma OfTurn(i: nat)
    requires i < 32
    ensures 7 * i % 32 == i + i + i + i + i + i + i - (if i < 5 then 0 else if i < 10 then 32 else if i < 14 then 64
      else if i < 19 then 96 else if i < 23 then 128 else if i < 28 then 160 else 192)
  {
  }

  lemma OfVisits(i: nat)
    requires i <= 26
    ensures 0 <= OfSymbol(i) < Whole(OffsetCode)
    ensures Start(OffsetCode, OfSymbol(i)) <= Visit(OffsetCode, i)
      < Start(OffsetCode, OfSymbol(i)) + Share(OffsetCode, OfSymbol(i))
  {
    var t := 7 * i % 32;
    assert Turn(OffsetCode, i) == t;
    VisitIs(OffsetCode, i);
    hide Turn, Visit;
    OfTurn(i);
  }

  lemma SymbolVisits(k: Kind, i: nat)
    requires i <= Top(k)
    ensures 0 <= SymbolOf(k, i) < Whole(k)
    ensures Start(k, SymbolOf(k, i)) <= Visit(k, i) < Start(k, SymbolOf(k, i)) + Share(k, SymbolOf(k, i))
  {
    hide Start, Visit, Share, Whole, LlSymbol, MlSymbol, OfSymbol;
    match k case LiteralLength => LlVisits(i); case MatchLength => MlVisits(i); case OffsetCode => OfVisits(i);
  }

  lemma SymbolsAre(k: Kind, i: nat)
    requires i < TableSize(k)
    ensures i < |DefaultSyms(k)| && DefaultSyms(k)[i] == SymbolOf(k, i)
  {
    if i <= Top(k) {
      SymbolVisits(k, i);
      WalkedSymbol(k, i, SymbolOf(k, i));
    } else {
      RareSymbol(k, i);
    }
  }

  lemma NumberInShare(k: Kind, i: nat)
    requires i < TableSize(k)
    ensures 0 <= SymbolOf(k, i) < Symbols(k)
    ensures Share(k, SymbolOf(k, i)) <= NumberOf(k, i) < 2 * Share(k, SymbolOf(k, i))
  {
  }

  lemma LlNumbersGrow(i: nat, j: nat)
    requires i < j < 64 && LlSymbol(i) == LlSymbol(j)
    ensures LlNumber(i) < LlNumber(j)
  {
  }

  lemma MlNumbersGrow(i: nat, j: nat)
    requires i < j < 64 && MlSymbol(i) == MlSymbol(j)
    ensures MlNumber(i) < MlNumber(j)
  {
  }

  lemma OfNumbersGrow(i: nat, j: nat)
    requires i < j < 32 && OfSymbol(i) == OfSymbol(j)
    ensures OfNumber(i) < OfNumber(j)
  {
  }

  lemma NumbersGrow(k: Kind, i: nat, j: nat)
    requires i < j < TableSize(k) && SymbolOf(k, i) == SymbolOf(k, j)
    ensures NumberOf(k, i) < NumberOf(k, j)
  {
    hide LlSymbol, MlSymbol, OfSymbol, LlNumber, MlNumber, OfNumber;
    match k
    case LiteralLength => LlNumbersGrow(i, j);
    case MatchLength => MlNumbersGrow(i, j);
    case OffsetCode => OfNumbersGrow(i, j);
  }

  // ----- the rows -----

  /** Numbers grow along the cells of a symbol, and stay below its count. */
  ghost predicate Ranked(syms: seq<nat>, ranks: seq<int>, s: nat) {
    && |syms| == |ranks|
    && (forall i :: 0 <= i < |syms| && syms[i] == s ==> 0 <= ranks[i] < CellCount(syms, s))
    && (forall i, j :: 0 <= i < j < |syms| && syms[i] == syms[j] == s ==> ranks[i] < ranks[j])
  }

  lemma {:induction false} FewBefore(syms: seq<nat>, ranks: seq<int>, s: nat, n: nat, b: int)
    requires Ranked(syms, ranks, s) && n <= |syms| && b >= 0
    requires forall i :: 0 <= i < n && syms[i] == s ==> ranks[i] < b
    ensures Occurrences(syms, n, s) <= b
  {
    if n > 0 {
      FewBefore(syms, ranks, s, n - 1, if syms[n - 1] == s then ranks[n - 1] else b);
    }
  }

  lemma {:induction false} FewAfter(syms: seq<nat>, ranks: seq<int>, s: nat, n: nat, b: int)
    requires Ranked(syms, ranks, s) && n <= |syms| && b <= CellCount(syms, s)
    requires forall i :: n <= i < |syms| && syms[i] == s ==> b <= ranks[i]
    ensures Occurrences(syms, |syms|, s) - Occurrences(syms, n, s) <= CellCount(syms, s) - b
    decreases |syms| - n
  {
    if n < |syms| {
      FewAfter(syms, ranks, s, n + 1, if syms[n] == s then ranks[n] + 1 else b);
    }
  }

  /** So they are the ranks of the cells. */
  lemma RankIs(syms: seq<nat>, ranks: seq<int>, i: nat)
    requires i < |syms| && Ranked(syms, ranks, syms[i])
    ensures Occurrences(syms, i, syms[i]) == ranks[i]
  {
    hide Occurrences;
    var s, r := syms[i], ranks[i];
    forall j | 0 <= j < i && syms[j] == s ensures ranks[j] < r {
    }
    FewBefore(syms, ranks, s, i, r);
    forall j | i <= j < |syms| && syms[j] == s ensures r <= ranks[j] {
      assert i < j ==> ranks[i] < ranks[j];
    }
    FewAfter(syms, ranks, s, i, r);
  }

  lemma CountIs(k: Kind, s: nat)
    requires s < Symbols(k)
    ensures CellCount(DefaultSyms(k), s) == Share(k, s)
  {
    hide *;
    DefaultIsSpread(k);
    DistIs(k);
    SpreadCounts(DefaultSyms(k), DefaultDist(k), DefaultLog(k), s);
    CellCountIs(DefaultSyms(k), s);
  }

  lemma CellCountIs(syms: seq<nat>, s: nat)
    ensures CellCount(syms, s) == Occurrences(syms, |syms|, s)
  {
  }

  function RankOf(k: Kind, i: nat): int {
    NumberOf(k, i) - Share(k, SymbolOf(k, i))
  }

  function Ranks(k: Kind): (ranks: seq<int>)
    ensures |ranks| == TableSize(k) && forall i :: 0 <= i < |ranks| ==> ranks[i] == RankOf(k, i)
  {
    seq(TableSize(k), i requires 0 <= i < TableSize(k) => RankOf(k, i))
  }

  lemma RankInCount(k: Kind, i: nat)
    requires i < TableSize(k)
    ensures i < |DefaultSyms(k)| && DefaultSyms(k)[i] == SymbolOf(k, i)
    ensures CellCount(DefaultSyms(k), DefaultSyms(k)[i]) == Share(k, SymbolOf(k, i))
    ensures 0 <= RankOf(k, i) < CellCount(DefaultSyms(k), DefaultSyms(k)[i])
  {
    hide *;
    SymbolsAre(k, i);
    NumberInShare(k, i);
    CountIs(k, SymbolOf(k, i));
    RankOfIs(k, i);
  }

  lemma RankOfIs(k: Kind, i: nat)
    ensures RankOf(k, i) == NumberOf(k, i) - Share(k, SymbolOf(k, i))
  {
  }

  lemma DefaultRanked(k: Kind, s: nat)
    ensures Ranked(DefaultSyms(k), Ranks(k), s)
  {
    hide DefaultSyms, DefaultLog, SymbolOf, NumberOf, Share, CellCount, RankOf, TableSize, DefaultDist;
    DistIs(k);
    forall i | 0 <= i < TableSize(k) ensures DefaultSyms(k)[i] == SymbolOf(k, i) && 0 <= RankOf(k, i) < CellCount(DefaultSyms(k), DefaultSyms(k)[i]) {
      RankInCount(k, i);
    }
    forall i, j | 0 <= i < j < TableSize(k) && SymbolOf(k, i) == SymbolOf(k, j) ensures RankOf(k, i) < RankOf(k, j) {
      NumbersGrow(k, i, j);
      RankOfIs(k, i);
      RankOfIs(k, j);
    }
  }

  lemma NextStateIs(k: Kind, i: nat)
    requires i < TableSize(k)
    ensures i < |DefaultSyms(k)| && NextState(DefaultSyms(k), i) == NumberOf(k, i)
  {
    hide *;
    RankInCount(k, i);
    RankOfIs(k, i);
    DefaultRanked(k, DefaultSyms(k)[i]);
    RankIs(DefaultSyms(k), Ranks(k), i);
    NextStateSum(DefaultSyms(k), i);
  }

  lemma NextStateSum(syms: seq<nat>, i: nat)
    requires i < |syms|
    ensures NextState(syms, i) == CellCount(syms, syms[i]) + Occurrences(syms, i, syms[i])
  {
  }

  /** A baseline and a number of bits that stand for a state number. */
  predicate Reads(size: int, x: int, base: int, bits: int) {
    && 0 <= base < size
    && (if bits == 4 then base == x + x + x + x + x + x + x + x + x + x + x + x + x + x + x + x - size
        else if bits == 5 then
          (x == 1 && base + size == 32) || (x == 2 && base + size == 64) || (x == 3 && base + size == 96)
        else bits == 6 && x == 1 && base + size == 64)
  }

  lemma RowReads(x: nat, s: nat, log: nat, base: nat, bits: nat)
    requires 5 <= log <= 6 && 0 < x < 8 && bits <= log && Reads(Pow2(log), x, base, bits)
    ensures HighBit(x) <= log && RowFrom(x, s, log) == Row(base, bits, s)
  {
    Pow2Values();
    Pow2Times(bits, x);
    if bits == 4 {
      assert Pow2(bits) * x == Pow2(log) + base;
      if log == 5 { HighBitUnique(x, 1); } else { HighBitUnique(x, 2); }
    } else if bits == 5 {
      if log == 5 { HighBitUnique(x, 0); } else { HighBitUnique(x, 1); }
    } else {
      HighBitUnique(x, 0);
    }
  }

  /** What the predefined table of a field does in a state. */
  ghost predicate IsRow(k: Kind, state: int, base: int, bits: int, symbol: int) {
    && 0 <= state < |Predefined(k).rows| == |DefaultSyms(k)|
    && base >= 0 && bits >= 0 && 0 <= symbol <= MaxCode(k)
    && RowAt(DefaultSyms(k), DefaultLog(k), state) == Row(base, bits, symbol)
    && Predefined(k).rows[state] == SeqEntry(base, bits, ExtraOf(k, symbol))
  }

  lemma RowIs(syms: seq<nat>, log: nat, i: nat, base: nat, bits: nat)
    requires 5 <= log <= 6 && |syms| == Pow2(log) && i < |syms| && NextState(syms, i) < 8 && bits <= log
    requires Reads(Pow2(log), NextState(syms, i), base, bits)
    ensures RowAt(syms, log, i) == Row(base, bits, syms[i])
  {
    hide Reads, RowFrom, HighBit, NextState, Pow2;
    RowReads(NextState(syms, i), syms[i], log, base, bits);
  }

  lemma NumberBelow(k: Kind, i: nat)
    requires i < TableSize(k)
    ensures NumberOf(k, i) < 8 && 5 <= DefaultLog(k) <= 6
  {
  }

  lemma ReadsBits(size: int, x: int, base: int, bits: int)
    requires Reads(size, x, base, bits) && (size == 32 || size == 64) && x > 0
    ensures base >= 0 && 4 <= bits && (size == 32 ==> bits <= 5) && bits <= 6
  {
  }

  lemma IsRowFrom(k: Kind, state: int, base: int, bits: int, symbol: int)
    requires 0 <= state < |DefaultSyms(k)| && base >= 0 && bits >= 0 && symbol == DefaultSyms(k)[state]
    requires RowAt(DefaultSyms(k), DefaultLog(k), state) == Row(base, bits, symbol)
    ensures IsRow(k, state, base, bits, symbol)
  {
    hide DefaultSyms, DefaultLog, RowAt, Pow2, Predefined;
  }

  lemma NumberIsRow(k: Kind, state: int, base: int, bits: int, symbol: int)
    requires 0 <= state < TableSize(k) && SymbolOf(k, state) == symbol
    requires Reads(TableSize(k), NumberOf(k, state), base, bits)
    ensures IsRow(k, state, base, bits, symbol)
  {
    SizeIs(k);
    hide *;
    DistIs(k);
    SymbolsAre(k, state);
    NumberBelow(k, state);
    NextStateIs(k, state);
    ReadsBits(TableSize(k), NumberOf(k, state), base, bits);
    RowIs(DefaultSyms(k), DefaultLog(k), state, base, bits);
    IsRowFrom(k, state, base, bits, symbol);
  }

  lemma SizeIs(k: Kind)
    ensures (TableSize(k) == 64 && DefaultLog(k) == 6) || (TableSize(k) == 32 && DefaultLog(k) == 5)
  {
  }

  predicate LlPrints(i: int, base: int, bits: int, s: int) {
    0 <= i < 64 && LlSymbol(i) == s && Reads(64, LlNumber(i), base, bits)
  }

  ghost predicate LlRow(state: int, base: int, bits: int, symbol: int) {
    IsRow(LiteralLength, state, base, bits, symbol)
  }

  /** The table of literal lengths: state, baseline, number of bits, symbol. */
  lemma LiteralLengthRows()
    ensures LlRow(0, 0, 4, 0) && LlRow(1, 16, 4, 0) && LlRow(2, 32, 5, 1) && LlRow(3, 0, 5, 3)
    ensures LlRow(4, 0, 5, 4) && LlRow(5, 0, 5, 6) && LlRow(6, 0, 5, 7) && LlRow(7, 0, 5, 9)
    ensures LlRow(8, 0, 5, 10) && LlRow(9, 0, 5, 12) && LlRow(10, 0, 6, 14) && LlRow(11, 0, 5, 16)
    ensures LlRow(12, 0, 5, 18) && LlRow(13, 0, 5, 19) && LlRow(14, 0, 5, 21) && LlRow(15, 0, 5, 22)
    ensures LlRow(16, 0, 5, 24) && LlRow(17, 32, 5, 25) && LlRow(18, 0, 5, 26) && LlRow(19, 0, 6, 27)
    ensures LlRow(20, 0, 6, 29) && LlRow(21, 0, 6, 31) && LlRow(22, 32, 4, 0) && LlRow(23, 0, 4, 1)
    ensures LlRow(24, 0, 5, 2) && LlRow(25, 32, 5, 4) && LlRow(26, 0, 5, 5) && LlRow(27, 32, 5, 7)
    ensures LlRow(28, 0, 5, 8) && LlRow(29, 32, 5, 10) && LlRow(30, 0, 5, 11) && LlRow(31, 0, 6, 13)
    ensures LlRow(32, 32, 5, 16) && LlRow(33, 0, 5, 17) && LlRow(34, 32, 5, 19) && LlRow(35, 0, 5, 20)
    ensures LlRow(36, 32, 5, 22) && LlRow(37, 0, 5, 23) && LlRow(38, 0, 4, 25) && LlRow(39, 16, 4, 25)
    ensures LlRow(40, 32, 5, 26) && LlRow(41, 0, 6, 28) && LlRow(42, 0, 6, 30) && LlRow(43, 48, 4, 0)
    ensures LlRow(44, 16, 4, 1) && LlRow(45, 32, 5, 2) && LlRow(46, 32, 5, 3) && LlRow(47, 32, 5, 5)
    ensures LlRow(48, 32, 5, 6) && LlRow(49, 32, 5, 8) && LlRow(50, 32, 5, 9) && LlRow(51, 32, 5, 11)
    ensures LlRow(52, 32, 5, 12) && LlRow(53, 0, 6, 15) && LlRow(54, 32, 5, 17) && LlRow(55, 32, 5, 18)
    ensures LlRow(56, 32, 5, 20) && LlRow(57, 32, 5, 21) && LlRow(58, 32, 5, 23) && LlRow(59, 32, 5, 24)
    ensures LlRow(60, 0, 6, 35) && LlRow(61, 0, 6, 34) && LlRow(62, 0, 6, 33) && LlRow(63, 0, 6, 32)
  {
    hide IsRow;
    forall i: int, b: int, n: int, s: int | LlPrints(i, b, n, s) ensures LlRow(i, b, n, s) {
      NumberIsRow(LiteralLength, i, b, n, s);
    }
  }

  predicate MlPrints(i: int, base: int, bits: int, s: int) {
    0 <= i < 64 && MlSymbol(i) == s && Reads(64, MlNumber(i), base, bits)
  }

  ghost predicate MlRow(state: int, base: int, bits: int, symbol: int) {
    IsRow(MatchLength, state, base, bits, symbol)
  }

  /** The table of match lengths: state, baseline, number of bits, symbol. */
  lemma MatchLengthRows()
    ensures MlRow(0, 0, 6, 0) && MlRow(1, 0, 4, 1) && MlRow(2, 32, 5, 2) && MlRow(3, 0, 5, 3)
    ensures MlRow(4, 0, 5, 5) && MlRow(5, 0, 5, 6) && MlRow(6, 0, 5, 8) && MlRow(7, 0, 6, 10)
    ensures MlRow(8, 0, 6, 13) && MlRow(9, 0, 6, 16) && MlRow(10, 0, 6, 19) && MlRow(11, 0, 6, 22)
    ensures MlRow(12, 0, 6, 25) && MlRow(13, 0, 6, 28) && MlRow(14, 0, 6, 31) && MlRow(15, 0, 6, 33)
    ensures MlRow(16, 0, 6, 35) && MlRow(17, 0, 6, 37) && MlRow(18, 0, 6, 39) && MlRow(19, 0, 6, 41)
    ensures MlRow(20, 0, 6, 43) && MlRow(21, 0, 6, 45) && MlRow(22, 16, 4, 1) && MlRow(23, 0, 4, 2)
    ensures MlRow(24, 32, 5, 3) && MlRow(25, 0, 5, 4) && MlRow(26, 32, 5, 6) && MlRow(27, 0, 5, 7)
    ensures MlRow(28, 0, 6, 9) && MlRow(29, 0, 6, 12) && MlRow(30, 0, 6, 15) && MlRow(31, 0, 6, 18)
    ensures MlRow(32, 0, 6, 21) && MlRow(33, 0, 6, 24) && MlRow(34, 0, 6, 27) && MlRow(35, 0, 6, 30)
    ensures MlRow(36, 0, 6, 32) && MlRow(37, 0, 6, 34) && MlRow(38, 0, 6, 36) && MlRow(39, 0, 6, 38)
    ensures MlRow(40, 0, 6, 40) && MlRow(41, 0, 6, 42) && MlRow(42, 0, 6, 44) && MlRow(43, 32, 4, 1)
    ensures MlRow(44, 48, 4, 1) && MlRow(45, 16, 4, 2) && MlRow(46, 32, 5, 4) && MlRow(47, 32, 5, 5)
    ensures MlRow(48, 32, 5, 7) && MlRow(49, 32, 5, 8) && MlRow(50, 0, 6, 11) && MlRow(51, 0, 6, 14)
    ensures MlRow(52, 0, 6, 17) && MlRow(53, 0, 6, 20) && MlRow(54, 0, 6, 23) && MlRow(55, 0, 6, 26)
    ensures MlRow(56, 0, 6, 29) && MlRow(57, 0, 6, 52) && MlRow(58, 0, 6, 51) && MlRow(59, 0, 6, 50)
    ensures MlRow(60, 0, 6, 49) && MlRow(61, 0, 6, 48) && MlRow(62, 0, 6, 47) && MlRow(63, 0, 6, 46)
  {
    hide IsRow;
    forall i: int, b: int, n: int, s: int | MlPrints(i, b, n, s) ensures MlRow(i, b, n, s) {
      NumberIsRow(MatchLength, i, b, n, s);
    }
  }

  predicate OfPrints(i: int, base: int, bits: int, s: int) {
    0 <= i < 32 && OfSymbol(i) == s && Reads(32, OfNumber(i), base, bits)
  }

  ghost predicate OfRow(state: int, base: int, bits: int, symbol: int) {
    IsRow(OffsetCode, state, base, bits, symbol)
  }

  /** The table of offsets: state, baseline, number of bits, symbol. */
  lemma OffsetCodeRows()
    ensures OfRow(0, 0, 5, 0) && OfRow(1, 0, 4, 6) && OfRow(2, 0, 5, 9) && OfRow(3, 0, 5, 15)
    ensures OfRow(4, 0, 5, 21) && OfRow(5, 0, 5, 3) && OfRow(6, 0, 4, 7) && OfRow(7, 0, 5, 12)
    ensures OfRow(8, 0, 5, 18) && OfRow(9, 0, 5, 23) && OfRow(10, 0, 5, 5) && OfRow(11, 0, 4, 8)
    ensures OfRow(12, 0, 5, 14) && OfRow(13, 0, 5, 20) && OfRow(14, 0, 5, 2) && OfRow(15, 16, 4, 7)
    ensures OfRow(16, 0, 5, 11) && OfRow(17, 0, 5, 17) && OfRow(18, 0, 5, 22) && OfRow(19, 0, 5, 4)
    ensures OfRow(20, 16, 4, 8) && OfRow(21, 0, 5, 13) && OfRow(22, 0, 5, 19) && OfRow(23, 0, 5, 1)
    ensures OfRow(24, 16, 4, 6) && OfRow(25, 0, 5, 10) && OfRow(26, 0, 5, 16) && OfRow(27, 0, 5, 28)
    ensures OfRow(28, 0, 5, 27) && OfRow(29, 0, 5, 26) && OfRow(30, 0, 5, 25) && OfRow(31, 0, 5, 24)
  {
    hide IsRow;
    forall i: int, b: int, n: int, s: int | OfPrints(i, b, n, s) ensures OfRow(i, b, n, s) {
      NumberIsRow(OffsetCode, i, b, n, s);
    }
  }
}
