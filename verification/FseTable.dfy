/** FSE decoding rows (section 4.1.1 of RFC 8878). */
module FseTable {
  import opened Arith
  import opened StepWalk
  import opened FseSpread
  import opened Wrappers

  // ----- the specification: rows of a symbol layout -----

  datatype Row = Row(base: nat, bits: nat, symbol: nat)

  function CellCount(syms: seq<nat>, s: nat): nat {
    Occurrences(syms, |syms|, s)
  }

  /** The cell's number among its symbol's states, counted from the symbol's count. */
  function NextState(syms: seq<nat>, i: nat): (x: nat)
    requires i < |syms|
    ensures x > 0
  {
    OccurrencesStep(syms, i, |syms|);
    CellCount(syms, syms[i]) + Occurrences(syms, i, syms[i])
  }

  lemma {:induction false} OccurrencesStep(syms: seq<nat>, i: nat, n: nat)
    requires i < n <= |syms|
    ensures Occurrences(syms, i, syms[i]) < Occurrences(syms, n, syms[i])
  {
    if i + 1 < n { OccurrencesStep(syms, i, n - 1); }
  }

  lemma StateRange(syms: seq<nat>, log: nat, i: nat)
    requires |syms| == Pow2(log) && i < |syms|
    ensures NextState(syms, i) < 2 * CellCount(syms, syms[i]) <= 2 * Pow2(log)
    ensures HighBit(NextState(syms, i)) <= log
  {
    OccurrencesStep(syms, i, |syms|);
    var h := HighBit(NextState(syms, i));
    if h > log { Pow2Mono(log + 1, h); }
  }

  /** The row of the state numbered `x`: the bits that are left to read, and
      where the next state begins. */
  function RowFrom(x: nat, s: nat, log: nat): (r: Row)
    requires x > 0 && HighBit(x) <= log
    ensures r.bits <= log && r.base + Pow2(r.bits) <= Pow2(log)
  {
    var bits := log - HighBit(x);
    ShlMono(Pow2(HighBit(x)), x, bits);
    Pow2Add(HighBit(x), bits);
    ShlBelow(x, HighBit(x) + 1, bits);
    Row(Shl(x, bits) - Pow2(log), bits, s)
  }

  function RowAt(syms: seq<nat>, log: nat, i: nat): (r: Row)
    requires |syms| == Pow2(log) && i < |syms|
    ensures r.bits <= log && r.base + Pow2(r.bits) <= Pow2(log)
  {
    StateRange(syms, log, i);
    RowFrom(NextState(syms, i), syms[i], log)
  }

  ghost function Rows(syms: seq<nat>, log: nat): (rows: seq<Row>)
    requires |syms| == Pow2(log)
    ensures |rows| == Pow2(log)
    ensures forall i :: 0 <= i < |rows| ==> rows[i] == RowAt(syms, log, i)
  {
    seq(Pow2(log), i requires 0 <= i < Pow2(log) => RowAt(syms, log, i))
  }

  /** When the walk comes to cell `i`. */
  ghost function VisitIndex(log: nat, top: nat, i: nat): (j: nat)
    requires log >= 5 && i <= top < Pow2(log)
    ensures j <= top < |Visits(Pow2(log), log, top)| && Visits(Pow2(log), log, top)[j] == i
  {
    assert exists j :: 0 <= j <= top < |Visits(Pow2(log), log, top)| && Visits(Pow2(log), log, top)[j] == i by {
      var j := VisitOf(log, top, i);
    }
    var j :| 0 <= j <= top < |Visits(Pow2(log), log, top)| && Visits(Pow2(log), log, top)[j] == i;
    j
  }

  /** The layout a distribution spreads to. */
  ghost function CellSymbol(dist: seq<int>, log: nat, i: nat): nat
    requires log >= 5 && Fills(dist, log) && HasWholeCell(dist, log) && i < Pow2(log)
  {
    CellsSplit(dist, |dist|);
    var top := Threshold(dist, log);
    if i <= top then Layout(dist, |dist|)[VisitIndex(log, top, i)]
    else
      Rares(dist, |dist|)[Pow2(log) - 1 - i]
  }

  ghost function SpreadOf(dist: seq<int>, log: nat): (syms: seq<nat>)
    requires log >= 5 && Fills(dist, log) && HasWholeCell(dist, log)
    ensures IsSpread(syms, dist, log)
  {
    var syms := seq(Pow2(log), i requires 0 <= i < Pow2(log) => CellSymbol(dist, log, i));
    SpreadOfIsSpread(dist, log, syms);
    syms
  }

  /** The walk comes to each of its cells once. */
  lemma VisitIndexIs(log: nat, top: nat, j: nat)
    requires log >= 5 && j <= top < Pow2(log)
    ensures var v := Visits(Pow2(log), log, top);
      |v| == top + 1 && v[j] <= top && VisitIndex(log, top, v[j]) == j
  {
    hide Pow2, Visits, VisitIndex;
    FullVisits(log, top);
    RangeSize(top + 1);
    var v := Visits(Pow2(log), log, top);
    assert v[j] in Elements(v);
    var i := VisitIndex(log, top, v[j]);
    assert v[i] == v[j];
  }

  /** The walk's `j`th cell has the layout's `j`th symbol. */
  lemma VisitedCell(dist: seq<int>, log: nat, j: nat)
    requires log >= 5 && Fills(dist, log) && HasWholeCell(dist, log) && j <= Threshold(dist, log)
    ensures var v := Visits(Pow2(log), log, Threshold(dist, log));
      j < |v| && v[j] <= Threshold(dist, log) < Pow2(log) && j < |Layout(dist, |dist|)|
      && CellSymbol(dist, log, v[j]) == Layout(dist, |dist|)[j]
  {
    hide Pow2, Layout, Rares, Visits, VisitIndex;
    CellsSplit(dist, |dist|);
    VisitIndexIs(log, Threshold(dist, log), j);
  }

  /** Rare symbols go to the cells at the end. */
  lemma RareCell(dist: seq<int>, log: nat, j: nat)
    requires log >= 5 && Fills(dist, log) && HasWholeCell(dist, log) && j < |Rares(dist, |dist|)|
    ensures j < Pow2(log) && CellSymbol(dist, log, Pow2(log) - 1 - j) == Rares(dist, |dist|)[j]
  {
    CellsSplit(dist, |dist|);
  }

  lemma SpreadOfIsSpread(dist: seq<int>, log: nat, syms: seq<nat>)
    requires log >= 5 && Fills(dist, log) && HasWholeCell(dist, log)
    requires |syms| == Pow2(log) && forall i :: 0 <= i < Pow2(log) ==> syms[i] == CellSymbol(dist, log, i)
    ensures IsSpread(syms, dist, log)
  {
    hide CellSymbol, Pow2, Visits, Layout, Rares;
    CellsSplit(dist, |dist|);
    var top := Threshold(dist, log);
    var v := Visits(Pow2(log), log, top);
    FullVisits(log, top);
    RangeSize(top + 1);
    forall j: nat | j <= top ensures v[j] <= top && syms[v[j]] == Layout(dist, |dist|)[j] {
      VisitedCell(dist, log, j);
    }
    forall j: nat | j < |Rares(dist, |dist|)| ensures syms[Pow2(log) - 1 - j] == Rares(dist, |dist|)[j] {
      RareCell(dist, log, j);
    }
  }

  lemma LaidIn(dist: seq<int>, s: nat)
    requires s < |dist| && dist[s] >= 0
    ensures TotalCells(dist, s + 1) == TotalCells(dist, s) + Positive(dist[s])
  {
  }

  /** Without rare symbols, cells are laid in symbol order, and the `k`th one
      stands `k` steps of 5/8 of the table and 3 from the first, wrapped. */
  lemma LaidSymbol(dist: seq<int>, log: nat, s: nat, k: nat)
    requires log >= 5 && Fills(dist, log) && s < |dist| && forall i :: 0 <= i < |dist| ==> dist[i] >= 0
    requires TotalCells(dist, s) <= k < TotalCells(dist, s + 1)
    ensures var size := Pow2(log);
      HasWholeCell(dist, log) && SpreadOf(dist, log)[k * (size / 2 + size / 8 + 3) % size] == s
  {
    hide Pow2, SpreadOf, Visits, Layout;
    NoRares(dist, |dist|);
    NoRares(dist, s);
    CellsSplit(dist, s);
    CellsSplit(dist, |dist|);
    LaidIn(dist, s);
    LayoutAt(dist, s, k - |Layout(dist, s)|);
    VisitsAll(Pow2(log), log);
    OrbitIs(k, log);
  }

  // ----- the decoder's construction -----

  /** The decoder's table of a distribution: its spread's rows. The only
      filling distributions it rejects have no whole cell or too many symbols. */
  method BuildDecodeTable(dist: seq<int>, log: nat) returns (r: Option<seq<Row>>)
    requires log >= 5 && Fills(dist, log)
    ensures r.Some? <==> |dist| <= 256 && HasWholeCell(dist, log)
    ensures r.Some? ==> r.value == Rows(SpreadOf(dist, log), log)
  {
    if |dist| > 256 {
      return None;
    }
    var symbols := new nat[Pow2(log)](_ => 0);
    var ok := SpreadSymbols(dist, log, symbols);
    if !ok {
      return None;
    }
    var rows := FillRows(dist, log, symbols[..]);
    SpreadUnique(symbols[..], SpreadOf(dist, log), dist, log);
    return Some(rows);
  }

  method FillRows(dist: seq<int>, log: nat, syms: seq<nat>) returns (rows: seq<Row>)
    requires log >= 5 && Fills(dist, log) && |dist| <= 256 && IsSpread(syms, dist, log)
    ensures rows == Rows(syms, log)
  {
    hide Pow2, Low, Shr, Shl, RowFrom, HighBit;
    var next := new nat[256](s => if 0 <= s < |dist| then Cells(dist[s]) else 0);
    forall s: nat | s < 256 ensures next[s] == CellCount(syms, s) {
      SpreadCounts(syms, dist, log, s);
    }
    rows := [];
    for i: nat := 0 to |syms|
      invariant |rows| == i
      invariant forall s: nat :: s < 256 ==> next[s] == CellCount(syms, s) + Occurrences(syms, i, s)
      invariant rows == Rows(syms, log)[..i]
    {
      var s := syms[i];
      SymbolOfSpread(syms, dist, log, i);
      StateRange(syms, log, i);
      var x := next[s];
      next[s] := x + 1;
      rows := rows + [RowFrom(x, s, log)];
    }
  }

  lemma SymbolOfSpread(syms: seq<nat>, dist: seq<int>, log: nat, i: nat)
    requires log >= 5 && Fills(dist, log) && IsSpread(syms, dist, log) && i < |syms|
    ensures syms[i] < |dist|
  {
    SpreadCounts(syms, dist, log, syms[i]);
    OccurrencesStep(syms, i, |syms|);
  }
}
