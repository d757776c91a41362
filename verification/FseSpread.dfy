/** Spreading a distribution's symbols over an FSE table: the specification,
    the decoder's three ways of doing it and the encoder's two, all proved to
    lay out the same table. */
module FseSpread {
  import opened Arith
  import opened StepWalk

  /** Largest table the decoder's eight-byte spread handles. */
  const SPREAD_MAX: nat := 512

  // ----- distributions -----

  /** Table cells of a probability; "less than one" (-1) takes one. */
  function Cells(p: int): nat {
    if p == -1 then 1 else Positive(p)
  }

  function Positive(p: int): nat {
    if p > 0 then p else 0
  }

  function TotalCells(dist: seq<int>, n: nat): nat
    requires n <= |dist|
  {
    if n == 0 then 0 else TotalCells(dist, n - 1) + Cells(dist[n - 1])
  }

  /** The "less than one" symbols among the first `n`, in order. */
  function Rares(dist: seq<int>, n: nat): seq<nat>
    requires n <= |dist|
  {
    if n == 0 then []
    else if dist[n - 1] == -1 then Rares(dist, n - 1) + [n - 1]
    else Rares(dist, n - 1)
  }

  function Repeat(x: nat, k: nat): (s: seq<nat>)
    ensures |s| == k && forall i :: 0 <= i < k ==> s[i] == x
  {
    seq(k, _ => x)
  }

  /** The positive symbols among the first `n`, each as often as it is probable. */
  function Layout(dist: seq<int>, n: nat): seq<nat>
    requires n <= |dist|
  {
    if n == 0 then [] else Layout(dist, n - 1) + Repeat(n - 1, Positive(dist[n - 1]))
  }

  /** The distribution's cells are the table's. */
  predicate Fills(dist: seq<int>, log: nat) {
    (forall i :: 0 <= i < |dist| ==> dist[i] >= -1) && TotalCells(dist, |dist|) == Pow2(log)
  }

  lemma {:induction false} CellsSplit(dist: seq<int>, n: nat)
    requires n <= |dist|
    ensures TotalCells(dist, n) == |Rares(dist, n)| + |Layout(dist, n)|
    ensures |Rares(dist, n)| <= n
  {
    if n > 0 { CellsSplit(dist, n - 1); }
  }

  lemma {:induction false} LayoutPrefix(dist: seq<int>, m: nat, n: nat)
    requires m <= n <= |dist|
    ensures Layout(dist, m) <= Layout(dist, n)
  {
    if m < n { LayoutPrefix(dist, m, n - 1); }
  }

  lemma {:induction false} RaresPrefix(dist: seq<int>, m: nat, n: nat)
    requires m <= n <= |dist|
    ensures Rares(dist, m) <= Rares(dist, n)
  {
    if m < n { RaresPrefix(dist, m, n - 1); }
  }

  lemma {:induction false} NoRares(dist: seq<int>, s: nat)
    requires s <= |dist| && forall i :: 0 <= i < s ==> dist[i] != -1
    ensures Rares(dist, s) == []
  {
    if s > 0 {
      NoRares(dist, s - 1);
    }
  }

  // ----- the specification -----

  /** Some symbol has a whole cell, so that the walk has somewhere to begin. */
  predicate HasWholeCell(dist: seq<int>, log: nat) {
    |Rares(dist, |dist|)| < Pow2(log)
  }

  /** The last cell the walk may use: the cells above hold the rare symbols. */
  function Threshold(dist: seq<int>, log: nat): nat
    requires HasWholeCell(dist, log)
  {
    Pow2(log) - 1 - |Rares(dist, |dist|)|
  }

  /** The rare symbols fill the table from its end, the others follow the walk. */
  ghost predicate IsSpread(syms: seq<nat>, dist: seq<int>, log: nat) {
    && HasWholeCell(dist, log)
    && |syms| == Pow2(log)
    && RaresPlaced(syms, dist, |dist|, log)
    && LayoutPlaced(syms, dist, |Layout(dist, |dist|)|, log)
  }

  ghost predicate RaresPlaced(syms: seq<nat>, dist: seq<int>, n: nat, log: nat)
    requires |syms| == Pow2(log) && n <= |dist|
  {
    && |Rares(dist, n)| <= Pow2(log)
    && forall j :: 0 <= j < |Rares(dist, n)| ==> syms[Pow2(log) - 1 - j] == Rares(dist, n)[j]
  }

  ghost predicate LayoutPlaced(syms: seq<nat>, dist: seq<int>, m: nat, log: nat)
    requires HasWholeCell(dist, log) && |syms| == Pow2(log)
    requires m <= |Layout(dist, |dist|)|
  {
    var v := Visits(Pow2(log), log, Threshold(dist, log));
    && m <= |v|
    && forall j :: 0 <= j < m ==> v[j] < |syms| && syms[v[j]] == Layout(dist, |dist|)[j]
  }

  // ----- one step of the walk -----

  /** Where a walk that has visited `n` usable positions stands. */
  ghost predicate Walked(k: nat, n: nat, position: nat, log: nat, top: nat) {
    && k <= Pow2(log)
    && position == Orbit(k, log)
    && |Visits(k, log, top)| == n
  }

  lemma AtVisit(k: nat, n: nat, position: nat, log: nat, top: nat)
    requires log >= 5 && top < Pow2(log)
    requires Walked(k, n, position, log, top) && position <= top && n <= top
    ensures k < Pow2(log) && |Visits(Pow2(log), log, top)| == top + 1
    ensures Visits(Pow2(log), log, top)[n] == position
    ensures Walked(k + 1, n + 1, Next(position, log), log, top)
  {
    FullVisits(log, top);
    VisitsPrefix(k + 1, Pow2(log), log, top);
  }

  lemma WalkSkips(k: nat, n: nat, position: nat, log: nat, top: nat)
    requires Walked(k, n, position, log, top) && position > top
    ensures k < Pow2(log) && Walked(k + 1, n, Next(position, log), log, top)
  {
    hide Pow2, Next;
    OrbitReturns(log);
  }

  lemma WalkDone(k: nat, position: nat, log: nat, top: nat)
    requires log >= 5 && top < Pow2(log)
    requires Walked(k, top + 1, position, log, top) && position <= top
    ensures position == 0
  {
    FullVisits(log, top);
    OrbitReturns(log);
    if k < Pow2(log) {
      VisitsPrefix(k + 1, Pow2(log), log, top);
    }
  }

  /** Writing the next laid-out symbol at a usable position. */
  lemma PlaceNext(syms: seq<nat>, dist: seq<int>, k: nat, n: nat, position: nat, s: nat, log: nat)
    requires log >= 5 && |syms| == Pow2(log) && Fills(dist, log) && HasWholeCell(dist, log)
    requires Walked(k, n, position, log, Threshold(dist, log)) && position <= Threshold(dist, log)
    requires n < |Layout(dist, |dist|)| && Layout(dist, |dist|)[n] == s
    requires LayoutPlaced(syms, dist, n, log)
    ensures k < Pow2(log)
    ensures Walked(k + 1, n + 1, Next(position, log), log, Threshold(dist, log))
    ensures LayoutPlaced(syms[position := s], dist, n + 1, log)
    ensures RaresPlaced(syms, dist, |dist|, log) ==> RaresPlaced(syms[position := s], dist, |dist|, log)
  {
    var top := Threshold(dist, log);
    CellsSplit(dist, |dist|);
    AtVisit(k, n, position, log, top);
    FullVisits(log, top);
    var v := Visits(Pow2(log), log, top);
    forall j | 0 <= j < n ensures v[j] != position {
    }
  }

  lemma LayoutAt(dist: seq<int>, s: nat, i: nat)
    requires s < |dist| && i < Positive(dist[s])
    ensures |Layout(dist, s)| + i < |Layout(dist, |dist|)|
    ensures Layout(dist, |dist|)[|Layout(dist, s)| + i] == s
  {
    LayoutPrefix(dist, s + 1, |dist|);
    assert Layout(dist, s + 1)[|Layout(dist, s)| + i] == s;
  }

  // ----- the decoder's spread -----

  /** Writes the rare symbols from the end of the table, or fails when none of
      the cells is left. `top` is the last cell not taken. */
  method PlaceRares(dist: seq<int>, log: nat, symbols: array<nat>) returns (ok: bool, top: nat)
    requires symbols.Length == Pow2(log)
    modifies symbols
    ensures ok <==> HasWholeCell(dist, log)
    ensures ok ==> top == Threshold(dist, log) && RaresPlaced(symbols[..], dist, |dist|, log)
  {
    top := symbols.Length - 1;
    var s: nat := 0;
    while s < |dist|
      invariant s <= |dist|
      invariant |Rares(dist, s)| == Pow2(log) - 1 - top && top < Pow2(log)
      invariant RaresPlaced(symbols[..], dist, s, log)
    {
      if dist[s] == -1 {
        if top == 0 {
          RaresPrefix(dist, s + 1, |dist|);
          return false, top;
        }
        symbols[top] := s;
        top := top - 1;
      }
      s := s + 1;
    }
    ok := true;
  }

  /** What holds while the walk writes: `n` symbols are in place, `k` steps made. */
  ghost predicate Spreading(syms: seq<nat>, dist: seq<int>, log: nat, k: nat, n: nat, position: nat) {
    && log >= 5 && Fills(dist, log) && HasWholeCell(dist, log)
    && |syms| == Pow2(log)
    && Walked(k, n, position, log, Threshold(dist, log))
    && n <= |Layout(dist, |dist|)| && LayoutPlaced(syms, dist, n, log)
    && RaresPlaced(syms, dist, |dist|, log)
  }

  lemma SpreadingBegins(syms: seq<nat>, dist: seq<int>, log: nat)
    requires log >= 5 && Fills(dist, log) && HasWholeCell(dist, log) && |syms| == Pow2(log)
    requires RaresPlaced(syms, dist, |dist|, log)
    ensures Spreading(syms, dist, log, 0, 0, 0) && Layout(dist, 0) == []
  {
  }

  lemma SpreadingInTable(syms: seq<nat>, dist: seq<int>, log: nat, k: nat, n: nat, position: nat)
    requires Spreading(syms, dist, log, k, n, position) && Rares(dist, |dist|) == []
    ensures position <= Threshold(dist, log)
  {
  }

  /** A step over a rare symbol's cell writes nothing. */
  lemma SpreadingSkips(syms: seq<nat>, dist: seq<int>, log: nat, k: nat, n: nat, position: nat)
    requires Spreading(syms, dist, log, k, n, position) && position > Threshold(dist, log)
    ensures k < Pow2(log) && Spreading(syms, dist, log, k + 1, n, Next(position, log))
  {
    hide LayoutPlaced, RaresPlaced, Pow2, Layout, Walked;
    WalkSkips(k, n, position, log, Threshold(dist, log));
  }

  lemma SpreadingEnds(syms: seq<nat>, dist: seq<int>, log: nat, k: nat, n: nat, position: nat)
    requires Spreading(syms, dist, log, k, n, position) && n == |Layout(dist, |dist|)|
    requires position <= Threshold(dist, log)
    ensures IsSpread(syms, dist, log) && position == 0
  {
    CellsSplit(dist, |dist|);
    WalkDone(k, position, log, Threshold(dist, log));
  }

  lemma LayoutStep(dist: seq<int>, s: nat)
    requires s < |dist|
    ensures |Layout(dist, s + 1)| == |Layout(dist, s)| + Positive(dist[s]) <= |Layout(dist, |dist|)|
  {
    LayoutPrefix(dist, s + 1, |dist|);
  }

  /** One write and one step, with the ghost bookkeeping of the walk. */
  method PlaceOne(dist: seq<int>, log: nat, s: nat, ghost i: nat, symbols: array<nat>,
                  position: nat, ghost n: nat, ghost k: nat)
    returns (position': nat, ghost n': nat, ghost k': nat)
    requires Spreading(symbols[..], dist, log, k, n, position) && position <= Threshold(dist, log)
    requires s < |dist| && i < Positive(dist[s]) && n == |Layout(dist, s)| + i
    modifies symbols
    ensures position' == Next(position, log) && n' == n + 1 && k' == k + 1
    ensures Spreading(symbols[..], dist, log, k', n', position')
  {
    LayoutAt(dist, s, i);
    PlaceNext(symbols[..], dist, k, n, position, s, log);
    ghost var before := symbols[..];
    symbols[position] := s;
    assert symbols[..] == before[position := s];
    position' := Next(position, log);
    n', k' := n + 1, k + 1;
  }

  /** In a table without rare symbols every position is usable. */
  method PlaceInTable(dist: seq<int>, log: nat, s: nat, ghost i: nat, symbols: array<nat>,
                      position: nat, ghost n: nat, ghost k: nat)
    returns (position': nat, ghost n': nat, ghost k': nat)
    requires Spreading(symbols[..], dist, log, k, n, position) && Rares(dist, |dist|) == []
    requires s < |dist| && i < Positive(dist[s]) && n == |Layout(dist, s)| + i
    modifies symbols
    ensures position' == Next(position, log) && n' == n + 1 && k' == k + 1
    ensures Spreading(symbols[..], dist, log, k', n', position')
  {
    SpreadingInTable(symbols[..], dist, log, k, n, position);
    position', n', k' := PlaceOne(dist, log, s, i, symbols, position, n, k);
  }

  /** The plain walk, for tables without rare symbols. */
  method PlainSpread(dist: seq<int>, log: nat, symbols: array<nat>) returns (position: nat)
    requires log >= 5 && symbols.Length == Pow2(log) && Fills(dist, log)
    requires Rares(dist, |dist|) == []
    modifies symbols
    ensures IsSpread(symbols[..], dist, log) && position == 0
  {
    hide Spreading, Layout, Rares, Pow2, LayoutPlaced, RaresPlaced, Visits, IsSpread, Fills;
    position := 0;
    ghost var n, k := 0, 0;
    SpreadingBegins(symbols[..], dist, log);
    var s: nat := 0;
    while s < |dist|
      invariant s <= |dist| && n == |Layout(dist, s)|
      invariant Spreading(symbols[..], dist, log, k, n, position)
    {
      var i: nat := 0;
      while i < dist[s]
        invariant 0 <= i <= Positive(dist[s]) && n == |Layout(dist, s)| + i
        invariant Spreading(symbols[..], dist, log, k, n, position)
      {
        position, n, k := PlaceInTable(dist, log, s, i, symbols, position, n, k);
        i := i + 1;
      }
      LayoutStep(dist, s);
      s := s + 1;
    }
    SpreadingInTable(symbols[..], dist, log, k, n, position);
    SpreadingEnds(symbols[..], dist, log, k, n, position);
  }

  /** The walk that skips the cells of rare symbols. */
  method ThresholdSpread(dist: seq<int>, log: nat, top: nat, symbols: array<nat>) returns (position: nat)
    requires log >= 5 && symbols.Length == Pow2(log) && Fills(dist, log)
    requires HasWholeCell(dist, log) && top == Threshold(dist, log)
    requires RaresPlaced(symbols[..], dist, |dist|, log)
    modifies symbols
    ensures IsSpread(symbols[..], dist, log) && position == 0
  {
    hide Spreading, Layout, Rares, Pow2, LayoutPlaced, RaresPlaced, Visits, IsSpread, Fills;
    position := 0;
    ghost var n, k := 0, 0;
    SpreadingBegins(symbols[..], dist, log);
    var s: nat := 0;
    while s < |dist|
      invariant s <= |dist| && n == |Layout(dist, s)|
      invariant Spreading(symbols[..], dist, log, k, n, position) && position <= top
    {
      var i: nat := 0;
      while i < dist[s]
        invariant 0 <= i <= Positive(dist[s]) && n == |Layout(dist, s)| + i
        invariant Spreading(symbols[..], dist, log, k, n, position) && position <= top
      {
        position, n, k := PlaceOne(dist, log, s, i, symbols, position, n, k);
        while position > top
          invariant Spreading(symbols[..], dist, log, k, n, position)
          decreases Pow2(log) - k
        {
          SpreadingSkips(symbols[..], dist, log, k, n, position);
          position := Next(position, log);
          k := k + 1;
        }
        i := i + 1;
      }
      LayoutStep(dist, s);
      s := s + 1;
    }
    SpreadingEnds(symbols[..], dist, log, k, n, position);
  }

  /** Eight copies of `s` from `pos` on. */
  method WriteEight(spread: array<nat>, pos: nat, s: nat)
    requires pos + 8 <= spread.Length
    modifies spread
    ensures forall j :: 0 <= j < spread.Length ==>
      spread[j] == if pos <= j < pos + 8 then s else old(spread[j])
  {
    for i := 0 to 8
      invariant forall j :: 0 <= j < spread.Length ==>
        spread[j] == if pos <= j < pos + i then s else old(spread[j])
    {
      spread[pos + i] := s;
    }
  }

  /** One symbol's run, in eights; the last may write too much. */
  method LayRun(spread: array<nat>, pos: nat, s: nat, n: nat)
    requires pos + n + 8 <= spread.Length
    modifies spread
    ensures spread[..pos + n] == old(spread[..pos]) + Repeat(s, n)
  {
    WriteEight(spread, pos, s);
    var i: nat := 8;
    while i < n
      invariant i >= 8 && (i < n + 8 || i == 8)
      invariant forall j :: 0 <= j < pos ==> spread[j] == old(spread[j])
      invariant forall j :: pos <= j < pos + i && j < spread.Length ==> spread[j] == s
    {
      WriteEight(spread, pos + i, s);
      i := i + 8;
    }
  }

  /** Lays the symbols down in order: each run overwrites what the one before
      it wrote too much. */
  method LayDown(dist: seq<int>, log: nat) returns (spread: array<nat>)
    requires log <= 9 && Fills(dist, log) && Rares(dist, |dist|) == []
    ensures fresh(spread) && spread.Length == SPREAD_MAX + 8 && Pow2(log) <= SPREAD_MAX
    ensures spread[..Pow2(log)] == Layout(dist, |dist|)
  {
    CellsSplit(dist, |dist|);
    Pow2Mono(log, 9);
    Pow2Values();
    spread := new nat[SPREAD_MAX + 8](_ => 0);
    var pos: nat := 0;
    var s: nat := 0;
    while s < |dist|
      invariant s <= |dist| && pos == |Layout(dist, s)| <= Pow2(log)
      invariant spread[..pos] == Layout(dist, s)
    {
      LayoutStep(dist, s);
      LayRun(spread, pos, s, Positive(dist[s]));
      pos := pos + Positive(dist[s]);
      s := s + 1;
    }
  }

  ghost predicate Scattered(syms: seq<nat>, layout: seq<nat>, m: nat, log: nat)
    requires |syms| == |layout| == Pow2(log) && m <= Pow2(log)
  {
    forall j :: 0 <= j < m ==> syms[Orbit(j, log)] == layout[j]
  }

  lemma ScatterNone(syms: seq<nat>, layout: seq<nat>, log: nat)
    requires |syms| == |layout| == Pow2(log)
    ensures Orbit(0, log) == 0 && Scattered(syms, layout, 0, log)
  {
  }

  lemma ScatterOne(syms: seq<nat>, layout: seq<nat>, m: nat, log: nat)
    requires log >= 5 && |syms| == |layout| == Pow2(log) && m < Pow2(log)
    requires Scattered(syms, layout, m, log)
    ensures Scattered(syms[Orbit(m, log) := layout[m]], layout, m + 1, log)
  {
    forall j | 0 <= j < m ensures Orbit(j, log) != Orbit(m, log) {
      OrbitInjective(j, m, log);
    }
  }

  lemma ScatteredIsSpread(syms: seq<nat>, dist: seq<int>, log: nat)
    requires log >= 5 && |syms| == Pow2(log) && Fills(dist, log) && Rares(dist, |dist|) == []
    requires |Layout(dist, |dist|)| == Pow2(log)
    requires Scattered(syms, Layout(dist, |dist|), Pow2(log), log)
    ensures IsSpread(syms, dist, log)
  {
    VisitsAll(Pow2(log), log);
    var v := Visits(Pow2(log), log, Pow2(log) - 1);
    forall j | 0 <= j < Pow2(log) ensures v[j] < |syms| && syms[v[j]] == Layout(dist, |dist|)[j] {
      assert v[j] == Orbit(j, log);
    }
  }

  /** Writes two symbols and steps twice at once. */
  method ScatterPair(log: nat, a: nat, b: nat, symbols: array<nat>, position: nat,
                     ghost layout: seq<nat>, ghost m: nat)
    returns (position': nat)
    requires log >= 5 && symbols.Length == |layout| == Pow2(log) && m + 1 < Pow2(log)
    requires position == Orbit(m, log) && a == layout[m] && b == layout[m + 1]
    requires Scattered(symbols[..], layout, m, log)
    modifies symbols
    ensures position' == Orbit(m + 2, log) && Scattered(symbols[..], layout, m + 2, log)
  {
    ghost var before := symbols[..];
    ScatterOne(before, layout, m, log);
    ghost var between: seq<nat> := before[position := a];
    ScatterOne(between, layout, m + 1, log);
    symbols[position] := a;
    symbols[Low(position + Step(log), log)] := b;
    assert symbols[..] == between[Orbit(m + 1, log) := b];
    NextNext(position, log);
    position' := Low(position + 2 * Step(log), log);
  }

  /** The decoder's fast spread: lay down, then scatter two symbols a turn. */
  method FastSpread(dist: seq<int>, log: nat, symbols: array<nat>) returns (position: nat)
    requires 5 <= log <= 9 && symbols.Length == Pow2(log) && Fills(dist, log)
    requires Rares(dist, |dist|) == []
    modifies symbols
    ensures IsSpread(symbols[..], dist, log) && position == 0
  {
    hide Orbit, Scattered, IsSpread, Layout, Pow2;
    var spread := LayDown(dist, log);
    ghost var layout := Layout(dist, |dist|);
    CellsSplit(dist, |dist|);
    position := 0;
    var m: nat := 0;
    ghost var turn, turns := 0, Pow2(log - 1);
    ScatterNone(symbols[..], layout, log);
    Pow2Step(log - 1);
    while m < symbols.Length
      invariant m == 2 * turn && turn <= turns && position == Orbit(m, log)
      invariant symbols.Length == 2 * turns
      invariant spread[..symbols.Length] == layout
      invariant Scattered(symbols[..], layout, m, log)
    {
      position := ScatterPair(log, spread[m], spread[m + 1], symbols, position, layout, m);
      m, turn := m + 2, turn + 1;
    }
    OrbitReturns(log);
    ScatteredIsSpread(symbols[..], dist, log);
  }

  /** The decoder's spread. It takes the eight-byte form when it can, and fails
      exactly when the distribution has only "less than one" symbols. */
  method SpreadSymbols(dist: seq<int>, log: nat, symbols: array<nat>) returns (ok: bool)
    requires log >= 5 && symbols.Length == Pow2(log) && Fills(dist, log)
    modifies symbols
    ensures ok <==> HasWholeCell(dist, log)
    ensures ok ==> IsSpread(symbols[..], dist, log)
  {
    var top;
    ok, top := PlaceRares(dist, log, symbols);
    if !ok {
      return false;
    }
    var position;
    if top == symbols.Length - 1 && symbols.Length <= SPREAD_MAX {
      Pow2Values();
      if log > 9 { Pow2Mono(10, log); }
      position := FastSpread(dist, log, symbols);
    } else if top == symbols.Length - 1 {
      position := PlainSpread(dist, log, symbols);
    } else {
      position := ThresholdSpread(dist, log, top, symbols);
    }
    return position == 0;
  }

  // ----- the encoder's spread -----

  /** The encoder's plain walk writes four symbols a turn. */
  method UnrolledSpread(dist: seq<int>, log: nat, symbols: array<nat>) returns (position: nat)
    requires log >= 5 && symbols.Length == Pow2(log) && Fills(dist, log)
    requires Rares(dist, |dist|) == []
    modifies symbols
    ensures IsSpread(symbols[..], dist, log) && position == 0
  {
    hide Spreading, Layout, Rares, Pow2, LayoutPlaced, RaresPlaced, Visits, IsSpread, Fills;
    position := 0;
    ghost var n, k := 0, 0;
    SpreadingBegins(symbols[..], dist, log);
    var s: nat := 0;
    while s < |dist|
      invariant s <= |dist| && n == |Layout(dist, s)|
      invariant Spreading(symbols[..], dist, log, k, n, position)
    {
      var remaining := Positive(dist[s]);
      ghost var i: nat := 0;
      while remaining >= 4
        invariant i + remaining == Positive(dist[s]) && n == |Layout(dist, s)| + i
        invariant Spreading(symbols[..], dist, log, k, n, position)
      {
        position, n, k := PlaceInTable(dist, log, s, i, symbols, position, n, k);
        position, n, k := PlaceInTable(dist, log, s, i + 1, symbols, position, n, k);
        position, n, k := PlaceInTable(dist, log, s, i + 2, symbols, position, n, k);
        position, n, k := PlaceInTable(dist, log, s, i + 3, symbols, position, n, k);
        remaining, i := remaining - 4, i + 4;
      }
      while remaining > 0
        invariant i + remaining == Positive(dist[s]) && n == |Layout(dist, s)| + i
        invariant Spreading(symbols[..], dist, log, k, n, position)
      {
        position, n, k := PlaceInTable(dist, log, s, i, symbols, position, n, k);
        remaining, i := remaining - 1, i + 1;
      }
      LayoutStep(dist, s);
      s := s + 1;
    }
    SpreadingInTable(symbols[..], dist, log, k, n, position);
    SpreadingEnds(symbols[..], dist, log, k, n, position);
  }

  /** The spread inside the encoder's table construction. */
  method EncoderSpread(dist: seq<int>, log: nat, symbols: array<nat>) returns (ok: bool)
    requires log >= 5 && symbols.Length == Pow2(log) && Fills(dist, log)
    modifies symbols
    ensures ok <==> HasWholeCell(dist, log)
    ensures ok ==> IsSpread(symbols[..], dist, log)
  {
    var top;
    ok, top := PlaceRares(dist, log, symbols);
    if !ok {
      return false;
    }
    var position;
    if top == symbols.Length - 1 {
      position := UnrolledSpread(dist, log, symbols);
    } else {
      position := ThresholdSpread(dist, log, top, symbols);
    }
    return position == 0;
  }

  // ----- what the specification pins down -----

  /** The walk reaches every cell up to the threshold. */
  lemma VisitOf(log: nat, top: nat, i: nat) returns (j: nat)
    requires log >= 5 && top < Pow2(log) && i <= top
    ensures |Visits(Pow2(log), log, top)| == top + 1
    ensures j <= top && Visits(Pow2(log), log, top)[j] == i
  {
    FullVisits(log, top);
    RangeSize(top + 1);
    assert i in Elements(Visits(Pow2(log), log, top));
    j :| 0 <= j < |Visits(Pow2(log), log, top)| && Visits(Pow2(log), log, top)[j] == i;
  }

  /** All spreads of a distribution are the same table, so decoder and encoder
      agree on every cell. */
  lemma SpreadUnique(a: seq<nat>, b: seq<nat>, dist: seq<int>, log: nat)
    requires log >= 5 && Fills(dist, log)
    requires IsSpread(a, dist, log) && IsSpread(b, dist, log)
    ensures a == b
  {
    var top := Threshold(dist, log);
    CellsSplit(dist, |dist|);
    forall i | 0 <= i < Pow2(log) ensures a[i] == b[i] {
      if i <= top {
        var j := VisitOf(log, top, i);
      } else {
        var j := Pow2(log) - 1 - i;
        assert a[Pow2(log) - 1 - j] == Rares(dist, |dist|)[j] == b[Pow2(log) - 1 - j];
      }
    }
  }

  /** Cells holding `s` among the first `n`. */
  function Occurrences(syms: seq<nat>, n: nat, s: nat): (c: nat)
    requires n <= |syms|
    ensures c <= n
  {
    if n == 0 then 0 else Occurrences(syms, n - 1, s) + (if syms[n - 1] == s then 1 else 0)
  }

  ghost function Where(syms: seq<nat>, n: nat, s: nat): set<nat>
    requires n <= |syms|
  {
    set i: nat | 0 <= i < n && syms[i] == s
  }

  lemma {:induction false} OccurrencesWhere(syms: seq<nat>, n: nat, s: nat)
    requires n <= |syms|
    ensures Occurrences(syms, n, s) == |Where(syms, n, s)|
  {
    if n == 0 {
      assert Where(syms, n, s) == {};
    } else {
      OccurrencesWhere(syms, n - 1, s);
      assert Where(syms, n, s) == Where(syms, n - 1, s) + (if syms[n - 1] == s then {n - 1} else {});
    }
  }

  ghost function Image(w: seq<nat>, js: set<nat>): set<nat>
    requires forall j :: j in js ==> j < |w|
  {
    set j | j in js :: w[j]
  }

  lemma {:induction false} ImageSize(w: seq<nat>, js: set<nat>)
    requires Distinct(w) && forall j :: j in js ==> j < |w|
    ensures |Image(w, js)| == |js|
    decreases |js|
  {
    if js == {} {
      assert Image(w, js) == {};
    } else {
      var j :| j in js;
      ImageSize(w, js - {j});
      assert Image(w, js) == Image(w, js - {j}) + {w[j]};
    }
  }

  /** A permutation of a list holds each symbol as often as the list does. */
  lemma PermutedOccurrences(syms: seq<nat>, list: seq<nat>, w: seq<nat>, s: nat)
    requires |syms| == |list| == |w| && Distinct(w)
    requires forall j :: 0 <= j < |w| ==> w[j] < |syms| && syms[w[j]] == list[j]
    ensures Occurrences(syms, |syms|, s) == Occurrences(list, |list|, s)
  {
    OccurrencesWhere(syms, |syms|, s);
    OccurrencesWhere(list, |list|, s);
    var js := Where(list, |list|, s);
    ImageSize(w, js);
    DistinctSize(w);
    RangeSize(|w|);
    assert Elements(w) <= Range(|w|);
    SubsetOfSameSize(Elements(w), Range(|w|));
    forall i | i in Where(syms, |syms|, s) ensures i in Image(w, js) {
      assert i in Elements(w);
      var j: nat :| j < |w| && w[j] == i;
      assert j in js;
    }
    assert Image(w, js) == Where(syms, |syms|, s);
  }

  lemma {:induction false} OccurrencesConcat(a: seq<nat>, b: seq<nat>, n: nat, s: nat)
    requires n <= |b|
    ensures Occurrences(a + b, |a| + n, s) == Occurrences(a, |a|, s) + Occurrences(b, n, s)
    decreases n
  {
    if n > 0 {
      OccurrencesConcat(a, b, n - 1, s);
    } else {
      OccurrencesPrefix(a, b, |a|, s);
    }
  }

  lemma {:induction false} OccurrencesPrefix(a: seq<nat>, b: seq<nat>, n: nat, s: nat)
    requires n <= |a|
    ensures Occurrences(a + b, n, s) == Occurrences(a, n, s)
  {
    if n > 0 { OccurrencesPrefix(a, b, n - 1, s); }
  }

  lemma {:induction false} OccurrencesRepeat(x: nat, k: nat, n: nat, s: nat)
    requires n <= k
    ensures Occurrences(Repeat(x, k), n, s) == if x == s then n else 0
  {
    if n > 0 { OccurrencesRepeat(x, k, n - 1, s); }
  }

  lemma {:induction false} LayoutOccurrences(dist: seq<int>, n: nat, s: nat)
    requires n <= |dist|
    ensures Occurrences(Layout(dist, n), |Layout(dist, n)|, s) == if s < n then Positive(dist[s]) else 0
  {
    if n > 0 {
      LayoutOccurrences(dist, n - 1, s);
      var k := Positive(dist[n - 1]);
      OccurrencesConcat(Layout(dist, n - 1), Repeat(n - 1, k), k, s);
      OccurrencesRepeat(n - 1, k, k, s);
    }
  }

  lemma {:induction false} RaresOccurrences(dist: seq<int>, n: nat, s: nat)
    requires n <= |dist|
    ensures Occurrences(Rares(dist, n), |Rares(dist, n)|, s) == if s < n && dist[s] == -1 then 1 else 0
  {
    if n > 0 {
      RaresOccurrences(dist, n - 1, s);
      if dist[n - 1] == -1 {
        OccurrencesConcat(Rares(dist, n - 1), [n - 1], 1, s);
      }
    }
  }

  /** The order in which the specification fills the cells. */
  ghost function FillOrder(dist: seq<int>, log: nat): seq<nat>
    requires HasWholeCell(dist, log)
  {
    Visits(Pow2(log), log, Threshold(dist, log))
      + seq(|Rares(dist, |dist|)|, j requires 0 <= j < |Rares(dist, |dist|)| => Pow2(log) - 1 - j)
  }

  /** Each cell is filled exactly once. */
  lemma FillOrderIsPermutation(dist: seq<int>, log: nat)
    requires log >= 5 && Fills(dist, log) && HasWholeCell(dist, log)
    ensures |FillOrder(dist, log)| == Pow2(log) && Distinct(FillOrder(dist, log))
    ensures forall j :: 0 <= j < Pow2(log) ==> FillOrder(dist, log)[j] < Pow2(log)
  {
    hide Pow2, Visits;
    var top := Threshold(dist, log);
    var v := Visits(Pow2(log), log, top);
    CellsSplit(dist, |dist|);
    FullVisits(log, top);
    RangeSize(top + 1);
    forall j | 0 <= j < |v| ensures v[j] <= top {
      assert v[j] in Elements(v);
    }
  }

  /** Along it stand the layout and then the rare symbols. */
  lemma FilledInOrder(syms: seq<nat>, dist: seq<int>, log: nat)
    requires log >= 5 && Fills(dist, log) && IsSpread(syms, dist, log)
    ensures var list, w := Layout(dist, |dist|) + Rares(dist, |dist|), FillOrder(dist, log);
      && HasWholeCell(dist, log) && |list| == |w| == |syms| && Distinct(w)
      && forall j :: 0 <= j < |w| ==> w[j] < |syms| && syms[w[j]] == list[j]
  {
    hide Pow2, Visits, Layout, Rares, Distinct;
    CellsSplit(dist, |dist|);
    FillOrderIsPermutation(dist, log);
  }

  /** Every cell is written, and each symbol gets the cells of its probability. */
  lemma SpreadCounts(syms: seq<nat>, dist: seq<int>, log: nat, s: nat)
    requires log >= 5 && Fills(dist, log) && IsSpread(syms, dist, log)
    ensures Occurrences(syms, |syms|, s) == if s < |dist| then Cells(dist[s]) else 0
  {
    hide Pow2, Visits, IsSpread, FillOrder, Occurrences, Layout, Rares, Fills;
    var layout, rares := Layout(dist, |dist|), Rares(dist, |dist|);
    FilledInOrder(syms, dist, log);
    PermutedOccurrences(syms, layout + rares, FillOrder(dist, log), s);
    OccurrencesConcat(layout, rares, |rares|, s);
    LayoutOccurrences(dist, |dist|, s);
    RaresOccurrences(dist, |dist|, s);
  }
}
