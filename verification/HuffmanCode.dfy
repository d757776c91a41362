/** Canonical Huffman codes (section 4.2.1.3 of RFC 8878): the decoding table
    that weights stand for, and the encoder's codes, which point into it. */
module HuffmanCode {
  import opened Arith
  import opened Wrappers
  import opened Huffman
  import opened HuffmanStream
  import opened HuffmanWeights

  // ----- where a symbol's rows are -----

  /** Symbols of weight `w` among the first `n`. */
  function WeightCount(weights: seq<nat>, n: nat, w: nat): nat
    requires n <= |weights|
  {
    if n == 0 then 0 else WeightCount(weights, n - 1, w) + (if weights[n - 1] == w then 1 else 0)
  }

  /** Rows of the smaller weights, counting the first `n` symbols. */
  function RowsBelow(weights: seq<nat>, n: nat, w: nat): nat
    requires n <= |weights|
  {
    if w <= 1 then 0 else RowsBelow(weights, n, w - 1) + Shl(WeightCount(weights, n, w - 1), w - 2)
  }

  /** A symbol's first row: smaller weights come first, then smaller symbols. */
  function Start(weights: seq<nat>, s: nat): nat
    requires s < |weights| && weights[s] > 0
  {
    RowsBelow(weights, |weights|, weights[s]) + Shl(WeightCount(weights, s, weights[s]), weights[s] - 1)
  }

  lemma {:induction false} RowsBelowStep(weights: seq<nat>, n: nat, w: nat)
    requires n < |weights|
    ensures RowsBelow(weights, n + 1, w) == RowsBelow(weights, n, w) + (if 0 < weights[n] < w then Pow2(weights[n] - 1) else 0)
  {
    if w > 1 {
      RowsBelowStep(weights, n, w - 1);
      ShlAdd(WeightCount(weights, n, w - 1), 1, w - 2);
      ShlOne(w - 2);
    }
  }

  lemma {:induction false} RowsBelowNone(weights: seq<nat>, w: nat)
    ensures RowsBelow(weights, 0, w) == 0
  {
    if w > 1 {
      RowsBelowNone(weights, w - 1);
      ShlOne(w - 2);
    }
  }

  lemma {:induction false} AllRows(weights: seq<nat>, n: nat, log: nat)
    requires n <= |weights| && forall s :: 0 <= s < n ==> weights[s] <= log
    ensures RowsBelow(weights, n, log + 1) == WeightSum(weights, n)
  {
    if n == 0 {
      RowsBelowNone(weights, log + 1);
    } else {
      AllRows(weights, n - 1, log);
      RowsBelowStep(weights, n - 1, log + 1);
    }
  }

  /** A complete code's ranks begin at multiples of their share. */
  lemma {:induction false} RankAligned(weights: seq<nat>, log: nat, w: nat) returns (q: nat)
    requires Complete(weights, log) && 1 <= w <= log + 1
    ensures RowsBelow(weights, |weights|, w) == Shl(q, w - 1)
    decreases log + 1 - w
  {
    hide Shl, Pow2;
    if w == log + 1 {
      AllRows(weights, |weights|, log);
      ShlOne(log);
      q := 1;
    } else {
      q := RankAligned(weights, log, w + 1);
      var c := WeightCount(weights, |weights|, w);
      ShlDouble(q, w - 1);
      if 2 * q < c {
        ShlMono(2 * q, c, w - 1);
        assert false;
      }
      ShlAdd(2 * q - c, c, w - 1);
      q := 2 * q - c;
    }
  }

  /** So does every symbol. */
  lemma StartAligned(weights: seq<nat>, log: nat, s: nat)
    requires Complete(weights, log) && s < |weights| && weights[s] > 0
    ensures Start(weights, s) == Shl(Shr(Start(weights, s), weights[s] - 1), weights[s] - 1)
  {
    hide Shl, Shr, Pow2, Low, RowsBelow;
    var w := weights[s];
    var q := RankAligned(weights, log, w);
    var c := WeightCount(weights, s, w);
    ShlAdd(q, c, w - 1);
    SplitUnique(0, q + c, w - 1);
  }

  // ----- the decoding table -----

  function Rows(symbol: byte, bits: nat, n: nat): (r: seq<HufEntry>)
    ensures |r| == n && forall i :: 0 <= i < n ==> r[i] == HufEntry(symbol, bits)
  {
    seq(n, _ => HufEntry(symbol, bits))
  }

  /** The rows of all weights below `w`, and of the first `n` symbols at `w`. */
  ghost function RowsTo(weights: seq<nat>, log: nat, w: nat, n: nat): seq<HufEntry>
    requires n <= |weights| <= 256 && 1 <= w <= log
    decreases w, n
  {
    if n > 0 then
      RowsTo(weights, log, w, n - 1) + (if weights[n - 1] == w then Rows(n - 1, log + 1 - w, Pow2(w - 1)) else [])
    else if w > 1 then RowsTo(weights, log, w - 1, |weights|)
    else []
  }

  lemma {:induction false} RowsToLength(weights: seq<nat>, log: nat, w: nat, n: nat)
    requires n <= |weights| <= 256 && 1 <= w <= log
    ensures |RowsTo(weights, log, w, n)| == RowsBelow(weights, |weights|, w) + Shl(WeightCount(weights, n, w), w - 1)
    decreases w, n
  {
    hide Shl, Pow2;
    if n > 0 {
      RowsToLength(weights, log, w, n - 1);
      ShlAdd(WeightCount(weights, n - 1, w), 1, w - 1);
      ShlOne(w - 1);
    } else if w > 1 {
      RowsToLength(weights, log, w - 1, |weights|);
      ShlOne(w - 1);
    } else {
      ShlOne(w - 1);
    }
  }

  lemma {:induction false} RowsToPrefix(weights: seq<nat>, log: nat, w: nat, n: nat, v: nat, m: nat)
    requires n <= |weights| <= 256 && m <= |weights| && 1 <= w <= log && 1 <= v <= log && (w < v || (w == v && n <= m))
    ensures RowsTo(weights, log, w, n) <= RowsTo(weights, log, v, m)
    decreases v, m
  {
    if w != v || n != m {
      if m > 0 {
        RowsToPrefix(weights, log, w, n, v, m - 1);
      } else {
        RowsToPrefix(weights, log, w, n, v - 1, |weights|);
      }
    }
  }

  /** The table of complete weights. */
  ghost function CanonicalTable(weights: seq<nat>, log: nat): HufTable
    requires Complete(weights, log)
  {
    HufTable(RowsTo(weights, log, log, |weights|), log)
  }

  /** Row `i` belongs to symbol `s`. */
  ghost predicate Owns(weights: seq<nat>, log: nat, s: nat, i: nat) {
    && s < |weights| && 0 < weights[s] <= log && Start(weights, s) <= i < Start(weights, s) + Pow2(weights[s] - 1)
  }

  lemma {:induction false} RowOwner(weights: seq<nat>, log: nat, w: nat, n: nat, i: nat) returns (s: nat)
    requires n <= |weights| <= 256 && 1 <= w <= log && i < |RowsTo(weights, log, w, n)|
    ensures Owns(weights, log, s, i) && RowsTo(weights, log, w, n)[i] == HufEntry(s, log + 1 - weights[s])
    decreases w, n
  {
    hide Shl, Pow2, RowsBelow;
    if n > 0 {
      if i < |RowsTo(weights, log, w, n - 1)| {
        s := RowOwner(weights, log, w, n - 1, i);
      } else {
        s := n - 1;
        RowsToLength(weights, log, w, n - 1);
      }
    } else {
      s := RowOwner(weights, log, w - 1, |weights|, i);
    }
  }

  /** Every row of a symbol is its entry. */
  lemma OwnedRow(weights: seq<nat>, log: nat, s: nat, i: nat)
    requires Complete(weights, log) && Owns(weights, log, s, i)
    ensures var t := CanonicalTable(weights, log); i < |t.rows| && t.rows[i] == HufEntry(s, log + 1 - weights[s])
  {
    hide Shl, Pow2, RowsBelow, Complete;
    assert |weights| <= 256 by { AtMost256(weights, log); }
    var w := weights[s];
    RowsToLength(weights, log, w, s);
    var upTo := RowsTo(weights, log, w, s + 1);
    RowsToPrefix(weights, log, w, s + 1, log, |weights|);
    assert upTo == RowsTo(weights, log, w, s) + Rows(s, log + 1 - w, Pow2(w - 1));
    assert upTo[i] == HufEntry(s, log + 1 - w);
  }

  lemma AtMost256(weights: seq<nat>, log: nat)
    requires Complete(weights, log)
    ensures |weights| <= 256 && 1 <= log <= 11
  {
  }

  /** Weights of a complete code stand for a table whose rows share their prefixes. */
  lemma CanonicalUsable(weights: seq<nat>, log: nat)
    requires Complete(weights, log)
    ensures var t := CanonicalTable(weights, log); t.Valid() && PrefixConsistent(t)
  {
    hide Shl, Shr, Low, RowsTo, Start, RowsBelow;
    var t := CanonicalTable(weights, log);
    CanonicalSize(weights, log);
    forall i: nat | i < |t.rows| ensures 1 <= t.rows[i].bits <= log {
      var s := RowOwner(weights, log, log, |weights|, i);
    }
    forall i: nat, j: nat | i < |t.rows| && j < |t.rows| && SamePrefix(i, j, log, t.rows[i].bits)
      ensures t.rows[j] == t.rows[i]
    {
      var s := RowOwner(weights, log, log, |weights|, i);
      SameOwner(weights, log, s, i, j);
      OwnedRow(weights, log, s, j);
    }
  }

  lemma CanonicalSize(weights: seq<nat>, log: nat)
    requires Complete(weights, log)
    ensures |CanonicalTable(weights, log).rows| == Pow2(log)
  {
    hide Shl, Pow2;
    RowsToLength(weights, log, log, |weights|);
    AllRows(weights, |weights|, log);
  }

  lemma SameOwner(weights: seq<nat>, log: nat, s: nat, i: nat, j: nat)
    requires Complete(weights, log) && Owns(weights, log, s, i)
    requires Shr(i, weights[s] - 1) == Shr(j, weights[s] - 1)
    ensures Owns(weights, log, s, j)
  {
    hide Shl, Shr, Low, Pow2, Start;
    var w := weights[s];
    StartAligned(weights, log, s);
    var c := Shr(Start(weights, s), w - 1);
    SplitUnique(i - Start(weights, s), c, w - 1);
    SplitAt(j, w - 1);
  }

  // ----- the encoder's codes -----

  /** A code and its length for each symbol; length 0 is no code. */
  datatype EncodeTable = EncodeTable(codes: seq<nat>, bits: seq<nat>, log: nat)

  /** The codes point to the symbols' rows. */
  ghost predicate Linked(e: EncodeTable, t: HufTable) {
    && t.Valid() && e.log == t.log && |e.codes| == |e.bits| == 256
    && forall s: nat :: s < 256 && e.bits[s] > 0 ==> Points(e, t, s)
  }

  ghost predicate Points(e: EncodeTable, t: HufTable, s: nat)
    requires s < |e.codes| == |e.bits| && s < 256
  {
    && 0 < e.bits[s] <= e.log && e.codes[s] < Pow2(e.bits[s])
    && var first, n := Shl(e.codes[s], e.log - e.bits[s]), Pow2(e.log - e.bits[s]);
      forall i: nat :: first <= i < first + n ==> RowIs(t, i, s, e.bits[s])
  }

  predicate RowIs(t: HufTable, i: nat, s: byte, bits: nat) {
    i < |t.rows| && t.rows[i] == HufEntry(s, bits)
  }

  /** The codes of symbols below `n` are their first rows, without the low bits. */
  ghost predicate CodesFor(e: EncodeTable, weights: seq<nat>, n: nat) {
    && |e.codes| == |e.bits| == 256 && n <= |weights| <= 256
    && forall s: nat :: s < 256 ==>
      if s < n && 0 < weights[s] <= e.log
      then e.bits[s] == e.log + 1 - weights[s] && e.codes[s] == Shr(Start(weights, s), weights[s] - 1)
      else e.bits[s] == 0
  }

  /** The next row of weight `w`, after the first `n` symbols. */
  ghost predicate RankIs(rankStart: seq<nat>, weights: seq<nat>, n: nat, w: nat)
    requires n <= |weights|
  {
    && 1 <= w < |rankStart|
    && rankStart[w] == RowsBelow(weights, |weights|, w) + Shl(WeightCount(weights, n, w), w - 1)
  }

  ghost predicate RanksAre(rankStart: seq<nat>, weights: seq<nat>, n: nat, upTo: nat)
    requires n <= |weights|
  {
    forall w: nat :: 1 <= w <= upTo ==> RankIs(rankStart, weights, n, w)
  }

  lemma RanksStep(rankStart: seq<nat>, weights: seq<nat>, s: nat, log: nat)
    requires s < |weights| && weights[s] <= log && |rankStart| == log + 2
    requires RanksAre(rankStart, weights, s, log)
    ensures weights[s] > 0 ==> rankStart[weights[s]] == Start(weights, s)
    ensures var r := if weights[s] == 0 then rankStart
        else rankStart[weights[s] := rankStart[weights[s]] + Shl(1, weights[s] - 1)];
      RanksAre(r, weights, s + 1, log)
  {
    hide Shl, RowsBelow;
    var v := weights[s];
    if v > 0 {
      assert RankIs(rankStart, weights, s, v);
    }
    var r := if v == 0 then rankStart else rankStart[v := rankStart[v] + Shl(1, v - 1)];
    var next := s + 1;
    forall w: nat | 1 <= w <= log ensures RankIs(r, weights, next, w) {
      assert RankIs(rankStart, weights, s, w);
      ShlAdd(WeightCount(weights, s, w), 1, w - 1);
    }
  }

  /** The encoder's code construction: ranks are counted, then handed out in
      symbol order. */
  method BuildEncodeCodes(weights: seq<nat>, log: nat) returns (e: EncodeTable)
    requires |weights| <= 256 && (forall s :: 0 <= s < |weights| ==> weights[s] <= log) && log >= 1
    ensures e.log == log && CodesFor(e, weights, |weights|)
  {
    hide Shr, Shl, Pow2, RanksAre, Start;
    var rankCount := CountRanks(weights, log);
    var rankStart: seq<nat> := StartRanks(rankCount, weights, log);
    e := EncodeTable(seq(256, _ => 0), seq(256, _ => 0), log);
    for s: nat := 0 to |weights|
      invariant e.log == log && CodesFor(e, weights, s) && |rankStart| == log + 2
      invariant RanksAre(rankStart, weights, s, log)
    {
      var w := weights[s];
      RanksStep(rankStart, weights, s, log);
      if w != 0 {
        e := EncodeTable(e.codes[s := Shr(rankStart[w], w - 1)], e.bits[s := log + 1 - w], log);
        rankStart := rankStart[w := rankStart[w] + Shl(1, w - 1)];
      }
    }
  }

  method CountRanks(weights: seq<nat>, log: nat) returns (rankCount: seq<nat>)
    requires forall s :: 0 <= s < |weights| ==> weights[s] <= log
    ensures |rankCount| == log + 2
    ensures forall w: nat :: 1 <= w <= log ==> rankCount[w] == WeightCount(weights, |weights|, w)
  {
    rankCount := seq(log + 2, _ => 0);
    for s: nat := 0 to |weights|
      invariant |rankCount| == log + 2
      invariant forall w: nat :: 1 <= w <= log ==> rankCount[w] == WeightCount(weights, s, w)
    {
      if weights[s] > 0 {
        rankCount := rankCount[weights[s] := rankCount[weights[s]] + 1];
      }
    }
  }

  method StartRanks(rankCount: seq<nat>, weights: seq<nat>, log: nat) returns (rankStart: seq<nat>)
    requires |rankCount| == log + 2 && forall w: nat :: 1 <= w <= log ==> rankCount[w] == WeightCount(weights, |weights|, w)
    ensures |rankStart| == log + 2 && RanksAre(rankStart, weights, 0, log)
  {
    hide Shl, WeightCount, RankIs;
    rankStart := seq(log + 2, _ => 0);
    var cumul: nat := 0;
    for w: nat := 1 to log + 1
      invariant |rankStart| == log + 2 && cumul == RowsBelow(weights, |weights|, w)
      invariant RanksAre(rankStart, weights, 0, w - 1)
    {
      FirstRank(rankStart, weights, w, cumul);
      rankStart := rankStart[w := cumul];
      cumul := cumul + Shl(rankCount[w], w - 1);
    }
  }

  lemma FirstRank(rankStart: seq<nat>, weights: seq<nat>, w: nat, cumul: nat)
    requires 1 <= w < |rankStart| && cumul == RowsBelow(weights, |weights|, w)
    requires RanksAre(rankStart, weights, 0, w - 1)
    ensures RanksAre(rankStart[w := cumul], weights, 0, w)
  {
    hide Shl, RowsBelow;
    var r := rankStart[w := cumul];
    forall v: nat | 1 <= v <= w ensures RankIs(r, weights, 0, v) {
      if v < w {
        assert RankIs(rankStart, weights, 0, v);
      }
      ShlOne(w - 1);
      assert WeightCount(weights, 0, v) == 0;
    }
  }

  /** The codes of complete weights point into their table. */
  lemma CodesLinked(e: EncodeTable, weights: seq<nat>, log: nat)
    requires Complete(weights, log) && e.log == log && CodesFor(e, weights, |weights|)
    ensures Linked(e, CanonicalTable(weights, log))
    ensures forall s: nat :: s < 256 ==> (e.bits[s] > 0 <==> s < |weights| && weights[s] > 0)
  {
    hide Shr, Shl, Pow2, Start, RowsTo;
    CanonicalUsable(weights, log);
    forall s: nat | s < 256 && e.bits[s] > 0 ensures Points(e, CanonicalTable(weights, log), s) {
      CodePoints(e, weights, log, s);
    }
  }

  lemma CodePoints(e: EncodeTable, weights: seq<nat>, log: nat, s: nat)
    requires Complete(weights, log) && e.log == log && |e.codes| == |e.bits| == 256 && s < |weights| && s < 256
    requires weights[s] > 0 && e.bits[s] == log + 1 - weights[s] && e.codes[s] == Shr(Start(weights, s), weights[s] - 1)
    ensures Points(e, CanonicalTable(weights, log), s)
  {
    hide Shr, Shl, Pow2, Start, RowsTo;
    var t, w := CanonicalTable(weights, log), weights[s];
    StartAligned(weights, log, s);
    Pow2Positive(w - 1);
    forall i: nat | Start(weights, s) <= i < Start(weights, s) + Pow2(w - 1) ensures RowIs(t, i, s, e.bits[s]) {
      OwnedRow(weights, log, s, i);
    }
    OwnedRow(weights, log, s, Start(weights, s));
    CanonicalSize(weights, log);
    ShrBelow(Start(weights, s), e.bits[s], w - 1);
  }

  lemma Pow2Positive(n: nat)
    ensures Pow2(n) > 0
  {
  }
}
