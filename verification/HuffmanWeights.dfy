/** Length-limited Huffman weights: the counts are flattened until the longest
    code has at most eleven bits. The weights always fill the code space. */
module HuffmanWeights {
  import opened Arith
  import opened Wrappers
  import opened HuffmanTree

  // ----- symbols that occur -----

  /** How many of the first `u` symbols occur. */
  function Rank(freqs: seq<nat>, u: nat): (r: nat)
    requires u <= |freqs|
    ensures r <= u
  {
    if u == 0 then 0 else Rank(freqs, u - 1) + (if freqs[u - 1] > 0 then 1 else 0)
  }

  /** The counts of the symbols that occur, in order, and where each symbol is. */
  ghost predicate IsActive(count: seq<nat>, freqs: seq<nat>, u: nat)
    requires u <= |freqs|
  {
    && |count| == Rank(freqs, u) && (forall i :: 0 <= i < |count| ==> count[i] > 0)
    && forall s: nat :: s < u && freqs[s] > 0 ==> HasSlot(count, freqs, s)
  }

  ghost predicate HasSlot(count: seq<nat>, freqs: seq<nat>, s: nat)
    requires s < |freqs|
  {
    Rank(freqs, s) < |count| && count[Rank(freqs, s)] == freqs[s]
  }

  method Active(freqs: seq<nat>) returns (count: seq<nat>)
    ensures IsActive(count, freqs, |freqs|)
  {
    hide IsActive;
    count := [];
    assert IsActive([], freqs, 0) by { NoneActive(freqs); }
    for u: nat := 0 to |freqs|
      invariant IsActive(count, freqs, u)
    {
      ActiveStep(count, freqs, u);
      if freqs[u] > 0 {
        count := count + [freqs[u]];
      }
    }
  }

  lemma NoneActive(freqs: seq<nat>)
    ensures IsActive([], freqs, 0)
  {
  }

  lemma ActiveStep(count: seq<nat>, freqs: seq<nat>, u: nat)
    requires u < |freqs| && IsActive(count, freqs, u)
    ensures IsActive(if freqs[u] > 0 then count + [freqs[u]] else count, freqs, u + 1)
  {
    hide Rank;
    RankStep(freqs, u);
    if freqs[u] > 0 {
      var r := count + [freqs[u]];
      assert HasSlot(r, freqs, u);
      forall s: nat | s < u && freqs[s] > 0 ensures HasSlot(r, freqs, s) {
        assert HasSlot(count, freqs, s);
      }
    }
  }

  lemma RankStep(freqs: seq<nat>, u: nat)
    requires u < |freqs|
    ensures Rank(freqs, u + 1) == Rank(freqs, u) + (if freqs[u] > 0 then 1 else 0)
  {
  }

  // ----- code lengths -----

  method Deepest(depth: seq<nat>) returns (top: nat)
    requires |depth| > 0
    ensures (forall i :: 0 <= i < |depth| ==> depth[i] <= top) && top in depth
  {
    top := depth[0];
    for i := 0 to |depth|
      invariant (forall j :: 0 <= j < i ==> depth[j] <= top) && top in depth
    {
      if depth[i] > top {
        top := depth[i];
      }
    }
  }

  /** The leaves' depths and the largest: a complete code, and a short one when
      the counts are within a factor of two. */
  method BitLengths(count: seq<nat>) returns (depth: seq<nat>, top: nat)
    requires 2 <= |count| <= MAX_SYMBOLS
    ensures |depth| == |count| && forall i :: 0 <= i < |depth| ==> 1 <= depth[i] <= top
    ensures top >= 1 && LeafSum(depth, |depth|, top) == Pow2(top)
    ensures Flat(count) ==> top <= 8
  {
    hide Tree, Depths, Ordered, Flat;
    var n := |count|;
    ghost var kids, order;
    var parent;
    parent, kids, order := BuildTree(count);
    var all := FindDepths(parent, n, kids);
    assert |all| == 2 * n - 1 by { DepthsLength(all, parent, n); }
    depth := all[..n];
    top := Deepest(depth);
    forall i | 0 <= i < n ensures all[i] <= top {
      assert all[i] == depth[i];
    }
    Kraft(all, parent, kids, n, top);
    LeafPrefix(all, n, n, top);
    if Flat(count) {
      ghost var x: nat :| x < |depth| && depth[x] == top;
      FlatDepth(all, parent, kids, order, count, n, x);
    }
  }

  lemma DepthsLength(depth: seq<nat>, parent: seq<nat>, n: nat)
    requires Depths(depth, parent, n)
    ensures |depth| == 2 * n - 1
  {
  }

  lemma {:induction false} LeafPrefix(depth: seq<nat>, m: nat, n: nat, top: nat)
    requires n <= m <= |depth| && forall i :: 0 <= i < m ==> depth[i] <= top
    ensures LeafSum(depth[..m], n, top) == LeafSum(depth, n, top)
  {
    if n > 0 {
      LeafPrefix(depth, m, n - 1, top);
    }
  }

  // ----- flattening -----

  function TotalCount(count: seq<nat>): nat {
    if |count| == 0 then 0 else count[0] + TotalCount(count[1..])
  }

  /** Half of each count, and one: no count is lost. */
  function Flatten(count: seq<nat>): (r: seq<nat>)
    ensures |r| == |count| && forall i :: 0 <= i < |r| ==> r[i] == 1 + count[i] / 2
  {
    seq(|count|, i requires 0 <= i < |count| => 1 + count[i] / 2)
  }

  lemma {:induction false} FlattenShrinks(count: seq<nat>, r: seq<nat>)
    requires |r| == |count| && forall i :: 0 <= i < |r| ==> count[i] > 0 && r[i] == 1 + count[i] / 2
    ensures TotalCount(r) <= TotalCount(count)
    ensures (exists i :: 0 <= i < |count| && count[i] >= 3) ==> TotalCount(r) < TotalCount(count)
  {
    if |count| > 0 {
      FlattenShrinks(count[1..], r[1..]);
      if i :| 0 <= i < |count| && count[i] >= 3 {
        if i > 0 {
          assert count[1..][i - 1] >= 3;
        }
      }
    }
  }

  // ----- weights -----

  /** The share of the code space that the first `u` weights take. */
  function WeightSum(weights: seq<nat>, u: nat): nat
    requires u <= |weights|
  {
    if u == 0 then 0 else WeightSum(weights, u - 1) + (if weights[u - 1] > 0 then Pow2(weights[u - 1] - 1) else 0)
  }

  /** Weights of a complete code of at most eleven bits. */
  ghost predicate Complete(weights: seq<nat>, log: nat) {
    && 1 <= log <= MAX_BITS && |weights| <= MAX_SYMBOLS && (forall s :: 0 <= s < |weights| ==> weights[s] <= log)
    && WeightSum(weights, |weights|) == Pow2(log)
  }

  /** A longer code has the smaller weight. */
  function WeightAt(freqs: seq<nat>, depth: seq<nat>, log: nat, s: nat): nat
    requires s < |freqs| && |depth| == Rank(freqs, |freqs|) && forall i :: 0 <= i < |depth| ==> 1 <= depth[i] <= log
  {
    if freqs[s] > 0 then RankBelow(freqs, s, |freqs|); log + 1 - depth[Rank(freqs, s)] else 0
  }

  function WeightsOf(freqs: seq<nat>, depth: seq<nat>, log: nat): (w: seq<nat>)
    requires |depth| == Rank(freqs, |freqs|) && forall i :: 0 <= i < |depth| ==> 1 <= depth[i] <= log
    ensures |w| == |freqs| && forall s: nat :: s < |w| ==> w[s] == WeightAt(freqs, depth, log, s)
  {
    seq(|freqs|, s requires 0 <= s < |freqs| => WeightAt(freqs, depth, log, s))
  }

  lemma {:induction false} RankBelow(freqs: seq<nat>, s: nat, u: nat)
    requires s < u <= |freqs| && freqs[s] > 0
    ensures Rank(freqs, s) < Rank(freqs, u)
  {
    if s < u - 1 {
      RankBelow(freqs, s, u - 1);
    }
  }

  lemma {:induction false} SharesAgree(freqs: seq<nat>, depth: seq<nat>, log: nat, u: nat)
    requires |depth| == Rank(freqs, |freqs|) && (forall i :: 0 <= i < |depth| ==> 1 <= depth[i] <= log) && u <= |freqs|
    ensures Rank(freqs, u) <= |depth|
    ensures WeightSum(WeightsOf(freqs, depth, log), u) == LeafSum(depth, Rank(freqs, u), log)
  {
    hide Pow2, WeightsOf;
    RanksRise(freqs, u, |freqs|);
    if u > 0 {
      SharesAgree(freqs, depth, log, u - 1);
      RankStep(freqs, u - 1);
    }
  }

  lemma {:induction false} RanksRise(freqs: seq<nat>, s: nat, u: nat)
    requires s <= u <= |freqs|
    ensures Rank(freqs, s) <= Rank(freqs, u)
  {
    if s < u {
      RanksRise(freqs, s, u - 1);
    }
  }

  /** The weights of counted symbols: whatever the counts, a complete code of at
      most eleven bits for exactly the symbols that occur. */
  method ComputeWeights(freqs: seq<nat>) returns (r: Option<(seq<nat>, nat)>)
    requires |freqs| <= MAX_SYMBOLS
    ensures r.Some? <==> Rank(freqs, |freqs|) >= 2
    ensures r.Some? ==> |r.value.0| == |freqs| && Complete(r.value.0, r.value.1)
    ensures r.Some? ==> forall s :: 0 <= s < |freqs| ==> (r.value.0[s] > 0 <==> freqs[s] > 0)
  {
    hide LeafSum, Flat, Complete;
    var count := Active(freqs);
    if |count| < 2 {
      return None;
    }
    while true
      invariant |count| == Rank(freqs, |freqs|) >= 2 && forall i :: 0 <= i < |count| ==> count[i] > 0
      decreases TotalCount(count)
    {
      var depth, top := BitLengths(count);
      if top <= MAX_BITS {
        WeightsAreComplete(freqs, depth, top);
        return Some((WeightsOf(freqs, depth, top), top));
      }
      NotFlat(count);
      FlattenShrinks(count, Flatten(count));
      count := Flatten(count);
    }
  }

  lemma WeightsAreComplete(freqs: seq<nat>, depth: seq<nat>, log: nat)
    requires |freqs| <= MAX_SYMBOLS && |depth| == Rank(freqs, |freqs|) && 1 <= log <= MAX_BITS
    requires forall i :: 0 <= i < |depth| ==> 1 <= depth[i] <= log
    requires LeafSum(depth, |depth|, log) == Pow2(log)
    ensures Complete(WeightsOf(freqs, depth, log), log)
    ensures forall s :: 0 <= s < |freqs| ==> (WeightsOf(freqs, depth, log)[s] > 0 <==> freqs[s] > 0)
  {
    hide LeafSum, WeightSum, WeightsOf, Pow2, Rank;
    SharesAgree(freqs, depth, log, |freqs|);
    forall s: nat | s < |freqs|
      ensures WeightAt(freqs, depth, log, s) <= log && (WeightAt(freqs, depth, log, s) > 0 <==> freqs[s] > 0)
    {
      if freqs[s] > 0 {
        RankBelow(freqs, s, |freqs|);
      }
    }
  }

  lemma NotFlat(count: seq<nat>)
    requires !Flat(count) && forall i :: 0 <= i < |count| ==> count[i] > 0
    ensures exists i :: 0 <= i < |count| && count[i] >= 3
  {
  }
}
