/** The encoder's symbol transforms and state table, and the proof that a
    transition and a decoding row undo each other. */
module FseEncodeTable {
  import opened Arith
  import opened FseSpread
  import opened FseTable

  // ----- the encoder's transforms -----

  const MAX_SYMBOLS: nat := 64
  const MAX_TABLE_SIZE: nat := 512

  type u32 = x: nat | x < 0x1_0000_0000

  datatype SymbolTransform = SymbolTransform(deltaNbBits: u32, deltaFindState: int)

  datatype EncodeTable = EncodeTable(
    transforms: seq<SymbolTransform>, states: seq<nat>, log: nat)

  function WrappingAdd(a: u32, b: u32): u32 {
    if a + b < 0x1_0000_0000 then a + b else a + b - 0x1_0000_0000
  }

  function WrappingSub(a: u32, b: u32): u32 {
    if a >= b then a - b else a - b + 0x1_0000_0000
  }

  // ----- the arithmetic of a symbol's count -----

  /** The most bits a symbol with `c` cells emits. */
  function MaxBitsOut(c: nat, log: nat): nat
    requires 0 < c <= Pow2(log)
  {
    if c == 1 then log
    else
      HighBitBelow(c - 1, log);
      log - HighBit(c - 1)
  }

  /** The first of the states that emit a symbol's larger number of bits. */
  function SplitState(c: nat, log: nat): nat
    requires 0 < c <= Pow2(log)
  {
    Shl(c, MaxBitsOut(c, log))
  }

  lemma CountShape(c: nat, log: nat)
    requires 0 < c <= Pow2(log) && log >= 1
    ensures 1 <= MaxBitsOut(c, log) <= log
    ensures Pow2(log) <= SplitState(c, log) <= 2 * Pow2(log)
    ensures c >= 2 ==> 2 * Pow2(log) <= Shl(2 * c - 1, MaxBitsOut(c, log))
  {
    if c == 1 {
      ShlOne(log);
    } else {
      HighBitBelow(c - 1, log);
      CountShapeAt(c, HighBit(c - 1), log - HighBit(c - 1));
    }
  }

  lemma CountShapeAt(c: nat, h: nat, bits: nat)
    requires c >= 2 && Pow2(h) < c <= Pow2(h + 1)
    ensures Pow2(h + bits) <= Shl(c, bits) <= Pow2(h + 1 + bits) <= Shl(2 * c - 1, bits)
  {
    ShlMono(c, Pow2(h + 1), bits);
    Pow2Add(h + 1, bits);
    ShlMono(Pow2(h), c, bits);
    Pow2Add(h, bits);
    ShlMono(Pow2(h + 1), 2 * c - 1, bits);
  }

  /** The packed constant: the larger number of bits in the high half, less the
      split, so that adding a state borrows for the states below the split. */
  function DeltaNbBits(c: nat, log: nat): (d: u32)
    requires 0 < c <= Pow2(log) && 1 <= log <= 9
    ensures MaxBitsOut(c, log) >= 1 && SplitState(c, log) <= 1024
    ensures d == 65536 * MaxBitsOut(c, log) - SplitState(c, log)
  {
    CountShape(c, log);
    Pow2Mono(log, 9);
    Pow2Values();
    WrappingSub(65536 * MaxBitsOut(c, log), Shl(c, MaxBitsOut(c, log)))
  }

  /** The constant of a symbol without cells; its two parts have no bit in common. */
  function UnusedDelta(log: nat): u32
    requires 1 <= log <= 9
  {
    Pow2Mono(log, 9);
    Pow2Values();
    65536 * (log + 1) + Pow2(log)
  }

  /** A symbol's transform; `total` counts the cells of the symbols before it. */
  function TransformOf(c: nat, total: nat, log: nat): SymbolTransform
    requires c <= Pow2(log) && 1 <= log <= 9
  {
    if c == 0 then SymbolTransform(UnusedDelta(log), 0)
    else SymbolTransform(DeltaNbBits(c, log), total - c)
  }

  function TransformFor(syms: seq<nat>, s: nat, log: nat): SymbolTransform
    requires |syms| == Pow2(log) && 1 <= log <= 9
  {
    TransformOf(CellCount(syms, s), Before(syms, s), log)
  }

  /** Cells of the symbols before `s`. */
  function Before(syms: seq<nat>, s: nat): nat {
    if s == 0 then 0 else Before(syms, s - 1) + CellCount(syms, s - 1)
  }

  /** The state-table slot of a cell: its symbol's first slot plus its rank. */
  function Slot(syms: seq<nat>, i: nat): nat
    requires i < |syms|
  {
    Before(syms, syms[i]) + Occurrences(syms, i, syms[i])
  }

  /** `t` is the encoder's table for a layout of symbols below `n`. */
  ghost predicate Encodes(t: EncodeTable, syms: seq<nat>, n: nat) {
    && 1 <= t.log <= 9 && |syms| == Pow2(t.log) && n <= MAX_SYMBOLS
    && |t.transforms| == MAX_SYMBOLS && |t.states| == MAX_TABLE_SIZE
    && (forall i :: 0 <= i < |syms| ==> syms[i] < n)
    && (forall s: nat :: s < n ==> t.transforms[s] == TransformFor(syms, s, t.log))
    && SlotsFilled(t.states, syms, |syms|, t.log)
  }

  /** The first `m` cells are in their slots. */
  ghost predicate SlotsFilled(states: seq<nat>, syms: seq<nat>, m: nat, log: nat)
    requires m <= |syms|
  {
    forall i :: 0 <= i < m ==> Slot(syms, i) < |states| && states[Slot(syms, i)] == Pow2(log) + i
  }

  /** Cells below `n` holding symbols below `s`. */
  ghost function CellsBelow(syms: seq<nat>, n: nat, s: nat): (c: nat)
    requires n <= |syms|
    ensures c <= n
  {
    if n == 0 then 0 else CellsBelow(syms, n - 1, s) + (if syms[n - 1] < s then 1 else 0)
  }

  lemma {:induction false} CellsBelowStep(syms: seq<nat>, n: nat, s: nat)
    requires n <= |syms|
    ensures CellsBelow(syms, n, s + 1) == CellsBelow(syms, n, s) + Occurrences(syms, n, s)
  {
    if n > 0 { CellsBelowStep(syms, n - 1, s); }
  }

  lemma {:induction false} CellsBelowNone(syms: seq<nat>, n: nat)
    requires n <= |syms|
    ensures CellsBelow(syms, n, 0) == 0
  {
    if n > 0 { CellsBelowNone(syms, n - 1); }
  }

  lemma {:induction false} BeforeIsCellsBelow(syms: seq<nat>, s: nat)
    ensures Before(syms, s) == CellsBelow(syms, |syms|, s) <= |syms|
  {
    if s == 0 {
      CellsBelowNone(syms, |syms|);
    } else {
      BeforeIsCellsBelow(syms, s - 1);
      CellsBelowStep(syms, |syms|, s - 1);
    }
  }

  lemma {:induction false} BeforeMono(syms: seq<nat>, a: nat, b: nat)
    requires a < b
    ensures Before(syms, a) + CellCount(syms, a) <= Before(syms, b)
  {
    if a + 1 < b { BeforeMono(syms, a, b - 1); }
  }

  /** Cells have slots of their own, one per cell of the table. */
  lemma SlotsDistinct(syms: seq<nat>, i: nat, j: nat)
    requires i < j < |syms|
    ensures Slot(syms, i) != Slot(syms, j) && Slot(syms, j) < |syms| && Slot(syms, i) < |syms|
  {
    var a, b := syms[i], syms[j];
    OccurrencesStep(syms, i, |syms|);
    OccurrencesStep(syms, j, |syms|);
    BeforeIsCellsBelow(syms, a + 1);
    BeforeIsCellsBelow(syms, b + 1);
    if a == b {
      OccurrencesStep(syms, i, j);
    } else if a < b {
      BeforeMono(syms, a, b);
    } else {
      BeforeMono(syms, b, a);
    }
  }

  lemma SlotInTable(syms: seq<nat>, i: nat)
    requires i < |syms|
    ensures Slot(syms, i) < |syms|
  {
    OccurrencesStep(syms, i, |syms|);
    BeforeIsCellsBelow(syms, syms[i] + 1);
  }

  lemma FillSlot(states: seq<nat>, syms: seq<nat>, i: nat, log: nat)
    requires i < |syms| <= |states| && |syms| == Pow2(log) && SlotsFilled(states, syms, i, log)
    ensures Slot(syms, i) < |states|
    ensures SlotsFilled(states[Slot(syms, i) := Pow2(log) + i], syms, i + 1, log)
  {
    SlotInTable(syms, i);
    forall j | 0 <= j < i ensures Slot(syms, j) != Slot(syms, i) {
      SlotsDistinct(syms, j, i);
    }
  }

  /** Running counts: where each symbol's slots begin. */
  method RunningCounts(count: seq<nat>, ghost syms: seq<nat>, n: nat) returns (cumul: seq<nat>)
    requires n <= |count| && forall s: nat :: s < n ==> count[s] == CellCount(syms, s)
    ensures |cumul| == n + 1 && forall r: nat :: r <= n ==> cumul[r] == Before(syms, r)
  {
    hide CellCount;
    cumul := [0];
    for s: nat := 0 to n
      invariant |cumul| == s + 1 && forall r: nat :: r <= s ==> cumul[r] == Before(syms, r)
    {
      cumul := cumul + [cumul[s] + count[s]];
    }
  }

  method FillTransforms(count: seq<nat>, ghost syms: seq<nat>, log: nat, n: nat) returns (tt: seq<SymbolTransform>)
    requires 1 <= log <= 9 && |syms| == Pow2(log) && n <= MAX_SYMBOLS && n <= |count|
    requires forall s: nat :: s < n ==> count[s] == CellCount(syms, s)
    ensures |tt| == MAX_SYMBOLS && forall s: nat :: s < n ==> tt[s] == TransformFor(syms, s, log)
  {
    tt := [];
    var total: nat := 0;
    for s: nat := 0 to n
      invariant total == Before(syms, s)
      invariant |tt| == s && forall r: nat :: r < s ==> tt[r] == TransformFor(syms, r, log)
    {
      var c := count[s];
      var transform := TransformOf(c, total, log);
      assert transform == TransformFor(syms, s, log);
      tt := tt + [transform];
      total := total + c;
    }
    tt := tt + seq(MAX_SYMBOLS - n, _ => SymbolTransform(65536 * (log + 1), 0));
  }

  /** The state table: each symbol's cells in table order. */
  method FillStates(cumul: seq<nat>, syms: seq<nat>, log: nat, n: nat) returns (states: array<nat>)
    requires 1 <= log <= 9 && |syms| == Pow2(log) && |cumul| == n + 1
    requires forall i :: 0 <= i < |syms| ==> syms[i] < n
    requires forall r: nat :: r <= n ==> cumul[r] == Before(syms, r)
    ensures fresh(states) && states.Length == MAX_TABLE_SIZE
    ensures SlotsFilled(states[..], syms, |syms|, log)
  {
    Pow2Mono(log, 9);
    Pow2Values();
    states := new nat[MAX_TABLE_SIZE](_ => 0);
    var slots := cumul;
    for i: nat := 0 to |syms|
      invariant |slots| == n + 1
      invariant forall r: nat :: r < n ==> slots[r] == Before(syms, r) + Occurrences(syms, i, r)
      invariant SlotsFilled(states[..], syms, i, log)
    {
      var s := syms[i];
      var idx := slots[s];
      FillSlot(states[..], syms, i, log);
      ghost var before := states[..];
      var cell: nat := |syms| + i;
      states[idx] := cell;
      assert states[..] == before[idx := cell];
      slots := slots[s := idx + 1];
    }
  }

  /** The part both of the encoder's constructions share. */
  method FillEncodeTable(count: seq<nat>, syms: seq<nat>, log: nat, n: nat) returns (t: EncodeTable)
    requires 1 <= log <= 9 && |syms| == Pow2(log) && n <= MAX_SYMBOLS && |count| == MAX_SYMBOLS
    requires forall s: nat :: s < n ==> count[s] == CellCount(syms, s)
    requires forall i :: 0 <= i < |syms| ==> syms[i] < n
    ensures t.log == log && Encodes(t, syms, n)
  {
    var cumul := RunningCounts(count, syms, n);
    var tt := FillTransforms(count, syms, log, n);
    var states := FillStates(cumul, syms, log, n);
    t := EncodeTable(tt, states[..], log);
  }

  /** The encoder's table from a decoding table. */
  method FromDecodeTable(rows: seq<Row>, log: nat, maxSymbol: nat, ghost syms: seq<nat>) returns (t: EncodeTable)
    requires 1 <= log <= 9 && maxSymbol < MAX_SYMBOLS && |syms| == Pow2(log) && rows == Rows(syms, log)
    requires forall i :: 0 <= i < |syms| ==> syms[i] <= maxSymbol
    ensures t.log == log && Encodes(t, syms, maxSymbol + 1)
  {
    hide Low, Shr, Shl, Pow2, HighBit;
    var count := new nat[MAX_SYMBOLS](_ => 0);
    var symbols := [];
    for i: nat := 0 to |rows|
      invariant symbols == syms[..i]
      invariant forall s: nat :: s < MAX_SYMBOLS ==> count[s] == Occurrences(syms, i, s)
    {
      var s := rows[i].symbol;
      count[s] := count[s] + 1;
      symbols := symbols + [s];
    }
    assert symbols == syms;
    t := FillEncodeTable(count[..], symbols, log, maxSymbol + 1);
  }

  /** The encoder's table from a distribution, with its own spread. It encodes
      the layout the decoder builds from the same distribution. */
  method FromDistribution(dist: seq<int>, log: nat) returns (ok: bool, t: EncodeTable)
    requires 5 <= log <= 9 && Fills(dist, log) && 0 < |dist| <= MAX_SYMBOLS
    ensures ok <==> HasWholeCell(dist, log)
    ensures ok ==> t.log == log && Encodes(t, SpreadOf(dist, log), |dist|)
  {
    t := EncodeTable([], [], 0);
    var count := new nat[MAX_SYMBOLS](s => if 0 <= s < |dist| then Cells(dist[s]) else 0);
    var symbols := new nat[Pow2(log)](_ => 0);
    ok := EncoderSpread(dist, log, symbols);
    if !ok {
      return;
    }
    var syms := symbols[..];
    forall s: nat | s < MAX_SYMBOLS ensures count[s] == CellCount(syms, s) {
      SpreadCounts(syms, dist, log, s);
    }
    forall i | 0 <= i < |syms| ensures syms[i] < |dist| {
      SymbolOfSpread(syms, dist, log, i);
    }
    SpreadUnique(syms, SpreadOf(dist, log), dist, log);
    t := FillEncodeTable(count[..], syms, log, |dist|);
  }

  // ----- transitions -----

  /** What the encoder emits for a symbol, and the state it moves to. */
  datatype Transit = Transit(out: nat, bits: nat, next: nat)

  /** The slot index is masked to the table, as the source masks it. */
  function StateAt(states: seq<nat>, idx: int): nat
    requires |states| == MAX_TABLE_SIZE
  {
    Pow2Values();
    states[Low(if idx >= 0 then idx else idx % 512, 9)]
  }

  function EmitCount(tt: SymbolTransform, state: u32): nat {
    WrappingAdd(tt.deltaNbBits, state) / 65536
  }

  function TransitBy(tt: SymbolTransform, states: seq<nat>, state: u32): Transit
    requires |states| == MAX_TABLE_SIZE
  {
    var nb := EmitCount(tt, state);
    Transit(BitAnd(state, Pow2(nb) - 1), nb, StateAt(states, Shr(state, nb) + tt.deltaFindState))
  }

  function Transition(t: EncodeTable, symbol: nat, state: u32): Transit
    requires |t.transforms| == MAX_SYMBOLS && |t.states| == MAX_TABLE_SIZE
  {
    Pow2Values();
    TransitBy(t.transforms[Low(symbol, 6)], t.states, state)
  }

  function InitState(t: EncodeTable, symbol: nat): nat
    requires |t.transforms| == MAX_SYMBOLS && |t.states| == MAX_TABLE_SIZE && symbol < MAX_SYMBOLS
  {
    var tt := t.transforms[symbol];
    var nb := EmitCount(tt, 32768);
    StateAt(t.states, Shr(WrappingSub(65536 * nb, tt.deltaNbBits), nb) + tt.deltaFindState)
  }

  lemma StateAtSmall(states: seq<nat>, idx: nat)
    requires |states| == MAX_TABLE_SIZE && idx < MAX_TABLE_SIZE
    ensures StateAt(states, idx) == states[idx]
  {
    Pow2Values();
    LowOfSmall(idx, 9);
  }

  /** The bits a symbol emits from `state`. */
  function EmittedBits(c: nat, log: nat, state: nat): nat
    requires 0 < c <= Pow2(log) && log >= 1
  {
    CountShape(c, log);
    if state >= SplitState(c, log) then MaxBitsOut(c, log) else MaxBitsOut(c, log) - 1
  }

  /** The packed constant gives them without a comparison. */
  lemma EmitCountIs(tt: SymbolTransform, c: nat, log: nat, state: u32)
    requires 0 < c <= Pow2(log) && 1 <= log <= 9 && state < 1024
    requires tt.deltaNbBits == DeltaNbBits(c, log)
    ensures EmitCount(tt, state) == EmittedBits(c, log, state)
  {
    CountShape(c, log);
  }

  lemma ShrBelowShl(x: nat, q: nat, n: nat)
    requires x < Shl(q, n)
    ensures Shr(x, n) < q
  {
    SplitAt(x, n);
    if Shr(x, n) >= q { ShlMono(q, Shr(x, n), n); }
  }

  lemma ShrAtLeastShl(x: nat, q: nat, n: nat)
    requires x >= Shl(q, n)
    ensures Shr(x, n) >= q
  {
    ShrMono(Shl(q, n), x, n);
    SplitUnique(0, q, n);
  }

  /** What is left of a state after emitting is one of the symbol's numbers. */
  lemma NumberAfterEmit(c: nat, log: nat, state: nat)
    requires 0 < c <= Pow2(log) && log >= 1 && Pow2(log) <= state < 2 * Pow2(log)
    ensures var nb := EmittedBits(c, log, state);
      nb <= log && c <= Shr(state, nb) < 2 * c && HighBit(Shr(state, nb)) == log - nb
  {
    hide Low, Shr, Shl, Pow2, HighBit;
    CountShape(c, log);
    Pow2Step(log);
    var mbo, nb := MaxBitsOut(c, log), EmittedBits(c, log, state);
    var x := Shr(state, nb);
    if state >= SplitState(c, log) {
      ShrAtLeastShl(state, c, mbo);
      if c == 1 {
        ShlOne(log);
        ShlAdd(1, 1, log);
        ShrBelowShl(state, 2, log);
      } else {
        ShrBelowShl(state, 2 * c - 1, mbo);
      }
    } else {
      ShlDouble(c, nb);
      ShlStep(c, nb);
      ShrBelowShl(state, 2 * c, nb);
      ShrAtLeastShl(state, c, nb);
    }
    ShrAtLeast(state, log - nb, nb);
    ShrBelow(state, log - nb + 1, nb);
    HighBitUnique(x, log - nb);
  }

  /** The cell of a symbol with `r` cells of the symbol before it. */
  lemma {:induction false} NthCell(syms: seq<nat>, n: nat, s: nat, r: nat) returns (i: nat)
    requires n <= |syms| && r < Occurrences(syms, n, s)
    ensures i < n && syms[i] == s && Occurrences(syms, i, s) == r
  {
    if syms[n - 1] == s && Occurrences(syms, n - 1, s) == r {
      i := n - 1;
    } else {
      i := NthCell(syms, n - 1, s, r);
    }
  }

  /** The cell of symbol `s` numbered `x`, and where the state table keeps it. */
  lemma CellNumbered(t: EncodeTable, syms: seq<nat>, n: nat, s: nat, x: nat) returns (i: nat)
    requires Encodes(t, syms, n) && CellCount(syms, s) <= x < 2 * CellCount(syms, s)
    ensures i < |syms| && syms[i] == s && NextState(syms, i) == x
    ensures StateAt(t.states, x + Before(syms, s) - CellCount(syms, s)) == Pow2(t.log) + i
  {
    var r := x - CellCount(syms, s);
    i := NthCell(syms, |syms|, s, r);
    assert Slot(syms, i) == Before(syms, s) + r;
    StateAtSmall(t.states, Slot(syms, i));
  }

  /** A transition without the packed constants. */
  lemma TransitShape(tt: SymbolTransform, states: seq<nat>, c: nat, log: nat, state: u32)
    requires |states| == MAX_TABLE_SIZE && 0 < c <= Pow2(log) && 1 <= log <= 9 && state < 1024
    requires tt.deltaNbBits == DeltaNbBits(c, log)
    ensures var nb := EmittedBits(c, log, state);
      TransitBy(tt, states, state) == Transit(Low(state, nb), nb, StateAt(states, Shr(state, nb) + tt.deltaFindState))
  {
    hide Low, Shr, Shl, Pow2, BitAnd, EmitCount, DeltaNbBits, StateAt;
    EmitCountIs(tt, c, log, state);
    AndMask(state, EmittedBits(c, log, state));
  }

  lemma InitialNumber(tt: SymbolTransform, c: nat, log: nat)
    requires 0 < c <= Pow2(log) && 1 <= log <= 9 && tt.deltaNbBits == DeltaNbBits(c, log)
    ensures EmitCount(tt, 32768) == MaxBitsOut(c, log)
    ensures 65536 * MaxBitsOut(c, log) - tt.deltaNbBits == SplitState(c, log)
    ensures Shr(SplitState(c, log), MaxBitsOut(c, log)) == c
  {
    CountShape(c, log);
    SplitUnique(0, c, MaxBitsOut(c, log));
  }

  lemma TransformIs(t: EncodeTable, syms: seq<nat>, n: nat, s: nat)
    requires Encodes(t, syms, n) && s < n && CellCount(syms, s) > 0
    ensures Low(s, 6) == s
    ensures t.transforms[s].deltaNbBits == DeltaNbBits(CellCount(syms, s), t.log)
    ensures t.transforms[s].deltaFindState == Before(syms, s) - CellCount(syms, s)
  {
    Pow2Values();
    LowOfSmall(s, 6);
    assert t.transforms[s] == TransformFor(syms, s, t.log);
  }

  lemma StatesAreSmall(log: nat)
    requires log <= 9
    ensures 2 * Pow2(log) <= 1024
  {
    Pow2Mono(log, 9);
    Pow2Values();
  }

  /** The inverse at the centre of FSE: a transition moves to a cell of its
      symbol, and that cell's row, reading the emitted bits, restores the state
      the encoder came from. */
  lemma TransitionUndone(t: EncodeTable, syms: seq<nat>, n: nat, s: nat, state: nat) returns (i: nat)
    requires Encodes(t, syms, n) && s < n && CellCount(syms, s) > 0
    requires Pow2(t.log) <= state < 2 * Pow2(t.log)
    requires state < 1024
    ensures i < |syms| && Transition(t, s, state).next == Pow2(t.log) + i
    ensures RowAt(syms, t.log, i).symbol == s
    ensures RowAt(syms, t.log, i).bits == Transition(t, s, state).bits
    ensures Transition(t, s, state).out < Pow2(Transition(t, s, state).bits)
    ensures Pow2(t.log) + RowAt(syms, t.log, i).base + Transition(t, s, state).out == state
  {
    hide Low, Shr, Shl, Pow2, BitAnd, EmitCount, DeltaNbBits, StateAt, HighBit, Before;
    var c := CellCount(syms, s);
    TransformIs(t, syms, n, s);
    TransitShape(t.transforms[s], t.states, c, t.log, state);
    NumberAfterEmit(c, t.log, state);
    var nb := EmittedBits(c, t.log, state);
    i := CellNumbered(t, syms, n, s, Shr(state, nb));
    StateRange(syms, t.log, i);
    SplitAt(state, nb);
  }

  /** The encoder begins on a cell of the last symbol. */
  lemma InitStateLands(t: EncodeTable, syms: seq<nat>, n: nat, s: nat) returns (i: nat)
    requires Encodes(t, syms, n) && s < n && CellCount(syms, s) > 0
    ensures i < |syms| && InitState(t, s) == Pow2(t.log) + i && syms[i] == s
  {
    hide Low, Shr, Shl, Pow2, BitAnd, DeltaNbBits, StateAt, HighBit, Before;
    TransformIs(t, syms, n, s);
    InitialNumber(t.transforms[s], CellCount(syms, s), t.log);
    i := CellNumbered(t, syms, n, s, CellCount(syms, s));
  }

  /** The states a row can lead back to. */
  ghost predicate Covers(r: Row, state: nat) {
    r.base <= state < r.base + Pow2(r.bits)
  }

  lemma CoveredNumber(syms: seq<nat>, log: nat, i: nat, state: nat)
    requires |syms| == Pow2(log) && i < |syms| && Covers(RowAt(syms, log, i), state)
    ensures Shr(Pow2(log) + state, RowAt(syms, log, i).bits) == NextState(syms, i)
    ensures HighBit(NextState(syms, i)) == log - RowAt(syms, log, i).bits
  {
    hide Low, Shr, Shl, Pow2, HighBit, CellCount;
    StateRange(syms, log, i);
    var r := RowAt(syms, log, i);
    ShlMono(Pow2(HighBit(NextState(syms, i))), NextState(syms, i), r.bits);
    Pow2Add(HighBit(NextState(syms, i)), r.bits);
    SplitUnique(state - r.base, NextState(syms, i), r.bits);
  }

  lemma {:induction false} RankInjective(syms: seq<nat>, i: nat, j: nat)
    requires i < j < |syms| && syms[i] == syms[j]
    ensures NextState(syms, i) < NextState(syms, j)
  {
    OccurrencesStep(syms, i, j);
  }

  /** The rows of a symbol partition the table's states: every state is covered
      by exactly one of them. */
  lemma RowsPartition(t: EncodeTable, syms: seq<nat>, n: nat, s: nat, state: nat) returns (i: nat)
    requires Encodes(t, syms, n) && s < n && CellCount(syms, s) > 0 && state < Pow2(t.log)
    ensures i < |syms| && syms[i] == s && Covers(RowAt(syms, t.log, i), state)
    ensures forall j: nat :: j < |syms| && syms[j] == s && Covers(RowAt(syms, t.log, j), state) ==> j == i
  {
    StatesAreSmall(t.log);
    i := TransitionUndone(t, syms, n, s, Pow2(t.log) + state);
    forall j: nat | j < |syms| && syms[j] == s && Covers(RowAt(syms, t.log, j), state) ensures j == i {
      if j < i {
        RowsDisjoint(syms, t.log, j, i, state);
      } else if i < j {
        RowsDisjoint(syms, t.log, i, j, state);
      }
    }
  }

  lemma RowsDisjoint(syms: seq<nat>, log: nat, i: nat, j: nat, state: nat)
    requires |syms| == Pow2(log) && i < j < |syms| && syms[i] == syms[j]
    ensures !(Covers(RowAt(syms, log, i), state) && Covers(RowAt(syms, log, j), state))
  {
    hide Low, Shr, Shl, Pow2, HighBit, CellCount;
    if Covers(RowAt(syms, log, i), state) && Covers(RowAt(syms, log, j), state) {
      RankInjective(syms, i, j);
      CoveredNumber(syms, log, i, state);
      CoveredNumber(syms, log, j, state);
      StateRange(syms, log, j);
      var x, y := NextState(syms, i), NextState(syms, j);
      var bi, bj := RowAt(syms, log, i).bits, RowAt(syms, log, j).bits;
      if bj > bi {
        Pow2Mono(HighBit(y) + 1, HighBit(x));
      } else if bj < bi {
        ShrShr(Pow2(log) + state, bj, bi - bj);
        OctaveAbove(x, y, bi - bj);
      }
    }
  }

  lemma OctaveAbove(x: nat, y: nat, d: nat)
    requires 0 < x < y < 2 * x && d > 0
    ensures Shr(y, d) < x
  {
    assert Shr(y, d) == Shr(y / 2, d - 1);
  }
}
