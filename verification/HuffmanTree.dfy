/** Huffman code lengths: two queues merge the counts into a tree, whose depths
    are the lengths of a complete code. Counts that are within a factor of two
    give the most balanced tree, so flattening the counts bounds the lengths. */
module HuffmanTree {
  import opened Arith
  import opened Wrappers

  const MAX_BITS: nat := 11
  const MAX_SYMBOLS: nat := 256

  // ----- leaves in order -----

  /** By count, then by index. */
  predicate Before(count: seq<nat>, a: nat, b: nat)
    requires a < |count| && b < |count|
  {
    count[a] < count[b] || (count[a] == count[b] && a < b)
  }

  /** All of the first `m` leaves, each once, in order. */
  ghost predicate Ordered(order: seq<nat>, count: seq<nat>, m: nat) {
    && |order| == m <= |count| && (forall i :: 0 <= i < m ==> order[i] < m) && (forall x: nat :: x < m ==> x in order)
    && (forall i, j :: 0 <= i < j < m ==> Before(count, order[i], order[j]))
  }

  method SortLeaves(count: seq<nat>) returns (order: seq<nat>)
    ensures Ordered(order, count, |count|)
  {
    order := [];
    for m: nat := 0 to |count|
      invariant Ordered(order, count, m)
    {
      var p := m;
      while p > 0 && Before(count, m, order[p - 1])
        invariant p <= m && forall i :: p <= i < m ==> Before(count, m, order[i])
      {
        p := p - 1;
      }
      InsertKeeps(order, count, m, p);
      order := order[..p] + [m] + order[p..];
    }
  }

  /** Leaf `m` goes in at `p`. */
  lemma InsertKeeps(order: seq<nat>, count: seq<nat>, m: nat, p: nat)
    requires Ordered(order, count, m) && p <= m < |count|
    requires forall i :: p <= i < m ==> Before(count, m, order[i])
    requires p > 0 ==> !Before(count, m, order[p - 1])
    ensures Ordered(order[..p] + [m] + order[p..], count, m + 1)
  {
    var r := order[..p] + [m] + order[p..];
    assert forall i :: 0 <= i < p ==> r[i] == order[i];
    assert forall i :: p < i < m + 1 ==> r[i] == order[i - 1];
    forall x: nat | x < m + 1 ensures x in r {
      InsertHolds(order, m, p, x);
    }
    forall i, j | 0 <= i < j < m + 1 ensures Before(count, r[i], r[j]) {
      if j == p && i < p - 1 {
        assert Before(count, order[i], order[p - 1]);
      }
    }
  }

  lemma InsertHolds(order: seq<nat>, m: nat, p: nat, x: nat)
    requires p <= |order| && (x in order || x == m)
    ensures x in order[..p] + [m] + order[p..]
  {
    var r := order[..p] + [m] + order[p..];
    if x in order {
      var i: nat :| i < |order| && order[i] == x;
      assert r[if i < p then i else i + 1] == x;
    } else {
      assert r[p] == x;
    }
  }

  // ----- the tree -----

  /** Nodes `0..n` are leaves, `n..2n-1` internal in the order they are made, the
      last one is the root. */
  datatype Kids = Kids(a: nat, b: nat)

  /** The first `m` internal nodes have their children. */
  ghost predicate Joined(parent: seq<nat>, kids: seq<Kids>, n: nat, m: nat) {
    && |kids| == m && |parent| == 2 * n - 1 && m < n
    && forall y :: 0 <= y < m ==>
      kids[y].a != kids[y].b && kids[y].a < n + y && kids[y].b < n + y
      && parent[kids[y].a] == n + y && parent[kids[y].b] == n + y
  }

  /** `x` is a child of a node made before `next`. */
  ghost predicate Placed(parent: seq<nat>, kids: seq<Kids>, n: nat, x: nat) {
    && x < |parent| && n <= parent[x] < n + |kids|
    && (kids[parent[x] - n].a == x || kids[parent[x] - n].b == x)
  }

  /** The whole tree: every node but the root is placed. */
  ghost predicate Tree(parent: seq<nat>, kids: seq<Kids>, n: nat) {
    && n >= 2 && Joined(parent, kids, n, n - 1)
    && forall x: nat :: x < 2 * n - 2 ==> Placed(parent, kids, n, x)
  }

  /** The two queues: leaves taken, internal nodes taken, and the next node to make. */
  datatype Queues = Queues(leaf: nat, internal: nat, next: nat)

  ghost predicate Taken(q: Queues, order: seq<nat>, n: nat, x: nat) {
    q.leaf <= |order| && ((x < n && x in order[..q.leaf]) || n <= x < q.internal)
  }

  /** What the merging keeps: all taken nodes, and only they, are children. */
  ghost predicate Merging(q: Queues, order: seq<nat>, count: seq<nat>, parent: seq<nat>, kids: seq<Kids>, n: nat) {
    && n >= 2 && |count| == n && Ordered(order, count, n) && n <= q.next < 2 * n
    && |kids| == q.next - n && |parent| == 2 * n - 1 && Joined(parent, kids, n, |kids|)
    && q.leaf <= n <= q.internal && (q.internal < q.next || q.next == n == q.internal)
    && q.leaf + (q.internal - n) == 2 * (q.next - n)
    && (forall x: nat :: Taken(q, order, n, x) ==> Placed(parent, kids, n, x))
    && (forall y :: 0 <= y < |kids| ==> Taken(q, order, n, kids[y].a) && Taken(q, order, n, kids[y].b))
  }

  /** The smaller front of the two queues, a leaf on equal counts. */
  method Pick(q: Queues, order: seq<nat>, freq: seq<nat>, n: nat) returns (x: nat, q': Queues)
    requires |order| == n && |freq| == 2 * n - 1 && q.leaf <= n <= q.internal <= q.next < 2 * n
    requires forall i :: 0 <= i < n ==> order[i] < n
    requires q.leaf < n || q.internal < q.next
    ensures Picked(q, order, freq, n, x, q')
  {
    if q.leaf < n && (q.internal >= q.next || freq[order[q.leaf]] <= freq[q.internal]) {
      x, q' := order[q.leaf], q.(leaf := q.leaf + 1);
    } else {
      x, q' := q.internal, q.(internal := q.internal + 1);
    }
  }

  ghost predicate Picked(q: Queues, order: seq<nat>, freq: seq<nat>, n: nat, x: nat, q': Queues) {
    && |order| == n && |freq| == 2 * n - 1 && q.leaf <= n <= q.internal <= q.next < 2 * n
    && (forall i :: 0 <= i < n ==> order[i] < n)
    && if q.leaf < n && (q.internal >= q.next || freq[order[q.leaf]] <= freq[q.internal])
       then x == order[q.leaf] && q' == q.(leaf := q.leaf + 1)
       else q.internal < q.next && x == q.internal && q' == q.(internal := q.internal + 1)
  }

  /** What is picked was not taken, and is then all that is taken besides. */
  lemma PickTakes(q: Queues, order: seq<nat>, count: seq<nat>, freq: seq<nat>, n: nat, x: nat, q': Queues)
    requires Picked(q, order, freq, n, x, q') && |count| == n && Ordered(order, count, n)
    ensures x < q.next && !Taken(q, order, n, x)
    ensures forall z: nat :: Taken(q', order, n, z) <==> Taken(q, order, n, z) || z == x
  {
    if q'.leaf > q.leaf {
      assert order[..q'.leaf] == order[..q.leaf] + [x];
      forall i | 0 <= i < q.leaf ensures order[i] != x {
        assert Before(count, order[i], order[q.leaf]);
      }
    }
  }

  /** Two nodes get a parent. */
  lemma JoinStep(parent: seq<nat>, kids: seq<Kids>, n: nat, a: nat, b: nat)
    requires |kids| + 1 < n && Joined(parent, kids, n, |kids|) && a != b && a < n + |kids| && b < n + |kids|
    requires forall y :: 0 <= y < |kids| ==> kids[y].a != a && kids[y].a != b && kids[y].b != a && kids[y].b != b
    ensures var next := n + |kids|; var parent', kids' := parent[a := next][b := next], kids + [Kids(a, b)];
      && Joined(parent', kids', n, |kids'|) && Placed(parent', kids', n, a) && Placed(parent', kids', n, b)
      && forall x: nat :: Placed(parent, kids, n, x) ==> Placed(parent', kids', n, x)
  {
  }

  /** Two picks and their parent keep what the merging keeps. */
  lemma MergeStep(q: Queues, order: seq<nat>, count: seq<nat>, parent: seq<nat>, kids: seq<Kids>, freq: seq<nat>, n: nat,
                  a: nat, q1: Queues, b: nat, q2: Queues)
    requires Merging(q, order, count, parent, kids, n) && q.next < 2 * n - 1
    requires Picked(q, order, freq, n, a, q1) && Picked(q1, order, freq, n, b, q2)
    ensures a < q.next && b < q.next
    ensures Merging(q2.(next := q.next + 1), order, count, parent[a := q.next][b := q.next], kids + [Kids(a, b)], n)
  {
    hide Ordered, Joined, Placed, Picked, Taken;
    PickTakes(q, order, count, freq, n, a, q1);
    PickTakes(q1, order, count, freq, n, b, q2);
    PickMoves(q, order, freq, n, a, q1);
    PickMoves(q1, order, freq, n, b, q2);
    KidsTaken(q, order, kids, n, a, b);
    JoinStep(parent, kids, n, a, b);
    var q' := q2.(next := q.next + 1);
    forall z: nat ensures Taken(q', order, n, z) == Taken(q2, order, n, z) {
      TakenAlone(q', q2, order, n, z);
    }
  }

  lemma PickMoves(q: Queues, order: seq<nat>, freq: seq<nat>, n: nat, x: nat, q': Queues)
    requires Picked(q, order, freq, n, x, q')
    ensures q'.next == q.next && q'.leaf <= n && q'.internal <= q.next
    ensures q'.leaf + q'.internal == q.leaf + q.internal + 1 && q'.internal >= q.internal
  {
  }

  lemma TakenAlone(q: Queues, r: Queues, order: seq<nat>, n: nat, x: nat)
    requires q.leaf == r.leaf && q.internal == r.internal
    ensures Taken(q, order, n, x) == Taken(r, order, n, x)
  {
  }

  lemma KidsTaken(q: Queues, order: seq<nat>, kids: seq<Kids>, n: nat, a: nat, b: nat)
    requires forall y :: 0 <= y < |kids| ==> Taken(q, order, n, kids[y].a) && Taken(q, order, n, kids[y].b)
    requires !Taken(q, order, n, a) && !Taken(q, order, n, b)
    ensures forall y :: 0 <= y < |kids| ==> kids[y].a != a && kids[y].a != b && kids[y].b != a && kids[y].b != b
  {
  }

  lemma AllTaken(q: Queues, order: seq<nat>, count: seq<nat>, parent: seq<nat>, kids: seq<Kids>, n: nat)
    requires Merging(q, order, count, parent, kids, n) && q.next == 2 * n - 1
    ensures Tree(parent, kids, n)
  {
    hide Placed, Joined;
    assert order[..q.leaf] == order;
    forall x: nat | x < 2 * n - 2 ensures Placed(parent, kids, n, x) {
      assert Taken(q, order, n, x);
    }
  }

  // ----- counts within a factor of two -----

  ghost predicate Flat(count: seq<nat>) {
    forall i, j :: 0 <= i < |count| && 0 <= j < |count| ==> count[i] <= 2 * count[j]
  }

  /** The nodes in the order a flat tree takes them: leaves, then internal nodes. */
  function Turn(order: seq<nat>, j: nat): nat {
    if j < |order| then order[j] else j
  }

  /** The counts of the first `m` nodes in that order. */
  ghost function TurnCounts(order: seq<nat>, freq: seq<nat>, m: nat): (v: seq<nat>)
    requires forall j: nat :: j < m ==> Turn(order, j) < m <= |freq|
    ensures |v| == m && forall j: nat :: j < m ==> v[j] == freq[Turn(order, j)]
  {
    seq(m, j requires 0 <= j < m => freq[Turn(order, j)])
  }

  ghost predicate Rising(v: seq<nat>) {
    forall i, j :: 0 <= i <= j < |v| ==> v[i] <= v[j]
  }

  /** In order, and from `from` on within a factor of two. */
  ghost predicate Narrow(v: seq<nat>, from: nat) {
    Rising(v) && forall j :: from <= j < |v| ==> v[j] <= 2 * v[from]
  }

  lemma NarrowStep(v: seq<nat>, from: nat)
    requires Narrow(v, from) && from + 1 < |v|
    ensures Narrow(v + [v[from] + v[from + 1]], from + 2)
  {
  }

  /** What a flat tree's merging keeps: nodes are taken in turn, and those not
      taken are within a factor of two of one another. */
  ghost predicate Turning(q: Queues, order: seq<nat>, freq: seq<nat>, kids: seq<Kids>, n: nat) {
    && |order| == n && n <= q.next < 2 * n && |kids| == q.next - n && |freq| == 2 * n - 1
    && q.leaf == Min(2 * |kids|, n) && q.internal == n + 2 * |kids| - q.leaf
    && (forall i :: 0 <= i < n ==> order[i] < n)
    && Narrow(TurnCounts(order, freq, q.next), 2 * |kids|)
    && forall y: nat :: y < |kids| ==> kids[y] == Kids(Turn(order, 2 * y), Turn(order, 2 * y + 1))
  }

  lemma PickInTurn(q: Queues, order: seq<nat>, freq: seq<nat>, n: nat, x: nat, q': Queues, j: nat)
    requires Picked(q, order, freq, n, x, q') && n <= q.next < 2 * n
    requires Rising(TurnCounts(order, freq, q.next))
    requires j < q.next && q.leaf == Min(j, n) && q.internal == n + j - q.leaf
    ensures x == Turn(order, j) && q'.leaf == Min(j + 1, n) && q'.internal == n + j + 1 - q'.leaf
  {
    if j < n && q.internal < q.next {
      var v := TurnCounts(order, freq, q.next);
      assert v[j] <= v[n];
    }
  }

  lemma TurnStep(q: Queues, order: seq<nat>, freq: seq<nat>, kids: seq<Kids>, n: nat, a: nat, q1: Queues, b: nat, q2: Queues)
    requires Turning(q, order, freq, kids, n) && q.next < 2 * n - 1
    requires Picked(q, order, freq, n, a, q1) && Picked(q1, order, freq, n, b, q2)
    ensures a < q.next && b < q.next
    ensures Turning(q2.(next := q.next + 1), order, freq[q.next := freq[a] + freq[b]], kids + [Kids(a, b)], n)
  {
    hide Picked, Rising, Narrow, TurnCounts;
    TakeTurns(q, order, freq, kids, n, a, q1, b, q2);
    NarrowStep(TurnCounts(order, freq, q.next), 2 * |kids|);
    CountsStep(order, freq, q.next, freq[a] + freq[b]);
  }

  /** The two picks are the next two turns. */
  lemma TakeTurns(q: Queues, order: seq<nat>, freq: seq<nat>, kids: seq<Kids>, n: nat, a: nat, q1: Queues, b: nat, q2: Queues)
    requires Turning(q, order, freq, kids, n) && q.next < 2 * n - 1
    requires Picked(q, order, freq, n, a, q1) && Picked(q1, order, freq, n, b, q2)
    ensures var k := |kids|;
      && a == Turn(order, 2 * k) && b == Turn(order, 2 * k + 1) && q2.next == q.next
      && q2.leaf == Min(2 * k + 2, n) && q2.internal == n + 2 * k + 2 - q2.leaf
      && a < q.next && b < q.next
      && freq[a] == TurnCounts(order, freq, q.next)[2 * k] && freq[b] == TurnCounts(order, freq, q.next)[2 * k + 1]
  {
    hide Picked, Rising;
    var k := |kids|;
    PickInTurn(q, order, freq, n, a, q1, 2 * k);
    PickMoves(q, order, freq, n, a, q1);
    PickInTurn(q1, order, freq, n, b, q2, 2 * k + 1);
    PickMoves(q1, order, freq, n, b, q2);
  }

  lemma CountsStep(order: seq<nat>, freq: seq<nat>, m: nat, c: nat)
    requires |order| <= m < |freq| && forall i :: 0 <= i < |order| ==> order[i] < m
    ensures TurnCounts(order, freq[m := c], m + 1) == TurnCounts(order, freq, m) + [c]
  {
  }

  // ----- merging -----

  lemma MergingBegins(order: seq<nat>, count: seq<nat>, n: nat)
    requires n >= 2 && |count| == n && Ordered(order, count, n)
    ensures Merging(Queues(0, n, n), order, count, seq(2 * n - 1, _ => 0), [], n)
    ensures Flat(count) ==> Turning(Queues(0, n, n), order, count + seq(n - 1, _ => 0), [], n)
  {
    var freq := count + seq(n - 1, _ => 0);
    if Flat(count) {
      var v := TurnCounts(order, freq, n);
      forall i, j | 0 <= i <= j < n ensures v[i] <= v[j] {
        if i < j {
          assert Before(count, order[i], order[j]);
        }
      }
      assert v[0] == count[order[0]];
    }
  }

  lemma CanPick(q: Queues, order: seq<nat>, count: seq<nat>, parent: seq<nat>, kids: seq<Kids>, n: nat)
    requires Merging(q, order, count, parent, kids, n) && q.next < 2 * n - 1
    ensures q.leaf < n || q.internal < q.next
    ensures q.leaf + q.internal + 1 < n + q.next && |order| == n && q.leaf <= n <= q.internal <= q.next
    ensures forall i :: 0 <= i < n ==> order[i] < n
  {
  }

  /** Two picks and the node above them. */
  method PickTwo(q: Queues, order: seq<nat>, freq: seq<nat>, n: nat, ghost count: seq<nat>, ghost parent: seq<nat>,
                 ghost kids: seq<Kids>)
    returns (a: nat, b: nat, q': Queues)
    requires Merging(q, order, count, parent, kids, n) && q.next < 2 * n - 1 == |freq| == |parent|
    requires Flat(count) ==> Turning(q, order, freq, kids, n)
    ensures a < q.next && b < q.next && q'.next == q.next + 1
    ensures Merging(q', order, count, parent[a := q.next][b := q.next], kids + [Kids(a, b)], n)
    ensures Flat(count) ==> Turning(q', order, freq[q.next := freq[a] + freq[b]], kids + [Kids(a, b)], n)
  {
    hide Ordered, Merging, Turning, Picked, Flat;
    CanPick(q, order, count, parent, kids, n);
    var q1, q2;
    a, q1 := Pick(q, order, freq, n);
    PickMoves(q, order, freq, n, a, q1);
    b, q2 := Pick(q1, order, freq, n);
    PickMoves(q1, order, freq, n, b, q2);
    MergeStep(q, order, count, parent, kids, freq, n, a, q1, b, q2);
    if Flat(count) {
      TurnStep(q, order, freq, kids, n, a, q1, b, q2);
    }
    q' := q2.(next := q.next + 1);
  }

  /** The tree of at least two counts. */
  method BuildTree(count: seq<nat>) returns (parent: seq<nat>, ghost kids: seq<Kids>, ghost order: seq<nat>)
    requires |count| >= 2
    ensures Tree(parent, kids, |count|) && Ordered(order, count, |count|)
    ensures Flat(count) ==> forall y: nat :: y < |kids| ==> kids[y] == Kids(Turn(order, 2 * y), Turn(order, 2 * y + 1))
  {
    hide Ordered, Merging, Turning, Flat, Tree;
    var n := |count|;
    var leaves := SortLeaves(count);
    order := leaves;
    var freq := count + seq(n - 1, _ => 0);
    parent, kids := seq(2 * n - 1, _ => 0), [];
    var q := Queues(0, n, n);
    MergingBegins(leaves, count, n);
    while q.next < 2 * n - 1
      invariant |freq| == |parent| == 2 * n - 1 && n <= q.next <= 2 * n - 1 && Merging(q, leaves, count, parent, kids, n)
      invariant Flat(count) ==> Turning(q, leaves, freq, kids, n)
    {
      var a, b, q' := PickTwo(q, leaves, freq, n, count, parent, kids);
      freq := freq[q.next := freq[a] + freq[b]];
      parent := parent[a := q.next][b := q.next];
      kids := kids + [Kids(a, b)];
      q := q';
    }
    AllTaken(q, leaves, count, parent, kids, n);
    if Flat(count) {
      TurnsTaken(q, leaves, freq, kids, n);
    }
  }

  lemma TurnsTaken(q: Queues, order: seq<nat>, freq: seq<nat>, kids: seq<Kids>, n: nat)
    requires Turning(q, order, freq, kids, n)
    ensures forall y: nat :: y < |kids| ==> kids[y] == Kids(Turn(order, 2 * y), Turn(order, 2 * y + 1))
  {
  }

  // ----- depths -----

  ghost predicate Depths(depth: seq<nat>, parent: seq<nat>, n: nat) {
    && n >= 2 && |depth| == |parent| == 2 * n - 1 && depth[2 * n - 2] == 0
    && forall x: nat :: x < 2 * n - 2 ==> parent[x] < 2 * n - 1 && depth[x] == depth[parent[x]] + 1
  }

  /** One pass backward from the root. */
  method FindDepths(parent: seq<nat>, n: nat, ghost kids: seq<Kids>) returns (depth: seq<nat>)
    requires Tree(parent, kids, n)
    ensures Depths(depth, parent, n)
  {
    depth := seq(2 * n - 1, _ => 0);
    var k: nat := 2 * n - 2;
    while k > 0
      invariant k <= 2 * n - 2 && |depth| == 2 * n - 1 && depth[2 * n - 2] == 0
      invariant forall x: nat :: k <= x < 2 * n - 2 ==> x < parent[x] < 2 * n - 1 && depth[x] == depth[parent[x]] + 1
    {
      k := k - 1;
      assert Placed(parent, kids, n, k);
      depth := depth[k := depth[parent[k]] + 1];
    }
  }

  // ----- a complete code -----

  /** Leaf depths up to `top`, each by the share of the code space it takes. */
  ghost function LeafSum(depth: seq<nat>, n: nat, top: nat): nat
    requires n <= |depth| && forall x :: 0 <= x < n ==> depth[x] <= top
  {
    if n == 0 then 0 else LeafSum(depth, n - 1, top) + Pow2(top - depth[n - 1])
  }

  ghost predicate Within(depth: seq<nat>, top: nat) {
    forall x :: 0 <= x < |depth| ==> depth[x] <= top
  }

  /** `x` is the root or hangs from a node made at `m` or later. */
  predicate InCut(parent: seq<nat>, n: nat, m: nat, x: nat)
    requires x < |parent|
  {
    x == 2 * n - 2 || parent[x] >= m
  }

  /** The shares of those among the first `u` nodes. */
  ghost function CutSum(depth: seq<nat>, parent: seq<nat>, n: nat, m: nat, top: nat, u: nat): nat
    requires |depth| == |parent| == 2 * n - 1 && u <= 2 * n - 1 && Within(depth, top)
  {
    if u == 0 then 0
    else CutSum(depth, parent, n, m, top, u - 1) + (if InCut(parent, n, m, u - 1) then Pow2(top - depth[u - 1]) else 0)
  }

  /** With node `y` replaced by its children the sum over nodes before it grows by
      `y`'s share. */
  lemma {:induction false} CutStep(depth: seq<nat>, parent: seq<nat>, kids: seq<Kids>, n: nat, y: nat, top: nat, u: nat)
    requires Tree(parent, kids, n) && Depths(depth, parent, n) && Within(depth, top) && n <= y < 2 * n - 1 && u <= y
    ensures depth[y] < top
    ensures CutSum(depth, parent, n, y, top, u) == CutSum(depth, parent, n, y + 1, top, u)
      + (if kids[y - n].a < u then Pow2(top - depth[y] - 1) else 0) + (if kids[y - n].b < u then Pow2(top - depth[y] - 1) else 0)
  {
    hide Pow2;
    assert depth[kids[y - n].a] == depth[y] + 1;
    if u > 0 {
      CutStep(depth, parent, kids, n, y, top, u - 1);
      assert Placed(parent, kids, n, u - 1);
    }
  }

  lemma {:induction false} CutWhole(depth: seq<nat>, parent: seq<nat>, kids: seq<Kids>, n: nat, m: nat, top: nat)
    requires Tree(parent, kids, n) && Depths(depth, parent, n) && Within(depth, top) && n <= m <= 2 * n - 1
    ensures CutSum(depth, parent, n, m, top, m) == Pow2(top)
    decreases 2 * n - 1 - m
  {
    hide Pow2, Joined;
    if m == 2 * n - 1 {
      OnlyRoot(depth, parent, kids, n, top, 2 * n - 2);
    } else {
      CutWhole(depth, parent, kids, n, m + 1, top);
      CutStep(depth, parent, kids, n, m, top, m);
      KidsBefore(parent, kids, n, m);
      if m < 2 * n - 2 {
        ParentAfter(parent, kids, n, m);
      }
      Pow2Step(top - depth[m] - 1);
    }
  }

  lemma KidsBefore(parent: seq<nat>, kids: seq<Kids>, n: nat, y: nat)
    requires Tree(parent, kids, n) && n <= y < 2 * n - 1
    ensures kids[y - n].a < y && kids[y - n].b < y
  {
  }

  lemma ParentAfter(parent: seq<nat>, kids: seq<Kids>, n: nat, x: nat)
    requires Tree(parent, kids, n) && x < 2 * n - 2
    ensures x < parent[x] < 2 * n - 1 && n <= parent[x]
  {
    assert Placed(parent, kids, n, x);
  }

  lemma {:induction false} OnlyRoot(depth: seq<nat>, parent: seq<nat>, kids: seq<Kids>, n: nat, top: nat, u: nat)
    requires Tree(parent, kids, n) && |depth| == |parent| && Within(depth, top) && u <= 2 * n - 2
    ensures CutSum(depth, parent, n, 2 * n - 1, top, u) == 0
  {
    if u > 0 {
      OnlyRoot(depth, parent, kids, n, top, u - 1);
      ParentAfter(parent, kids, n, u - 1);
    }
  }

  lemma {:induction false} CutOfLeaves(depth: seq<nat>, parent: seq<nat>, kids: seq<Kids>, n: nat, top: nat, u: nat)
    requires Tree(parent, kids, n) && |depth| == |parent| && Within(depth, top) && u <= n
    ensures CutSum(depth, parent, n, n, top, u) == LeafSum(depth, u, top)
  {
    if u > 0 {
      CutOfLeaves(depth, parent, kids, n, top, u - 1);
      ParentAfter(parent, kids, n, u - 1);
    }
  }

  /** Internal nodes are no deeper than the leaves. */
  lemma {:induction false} InternalWithin(depth: seq<nat>, parent: seq<nat>, kids: seq<Kids>, n: nat, top: nat, x: nat)
    requires Tree(parent, kids, n) && Depths(depth, parent, n) && x < 2 * n - 1
    requires forall i :: 0 <= i < n ==> depth[i] <= top
    ensures depth[x] <= top
  {
    if x >= n {
      var a := kids[x - n].a;
      KidsBefore(parent, kids, n, x);
      InternalWithin(depth, parent, kids, n, top, a);
    }
  }

  /** The leaves take the whole code space. */
  lemma Kraft(depth: seq<nat>, parent: seq<nat>, kids: seq<Kids>, n: nat, top: nat)
    requires Tree(parent, kids, n) && Depths(depth, parent, n)
    requires forall i :: 0 <= i < n ==> depth[i] <= top
    ensures LeafSum(depth, n, top) == Pow2(top)
    ensures forall i :: 0 <= i < n ==> depth[i] >= 1
  {
    hide Joined, Placed;
    forall x: nat | x < 2 * n - 1 ensures depth[x] <= top {
      InternalWithin(depth, parent, kids, n, top, x);
    }
    CutWhole(depth, parent, kids, n, n, top);
    CutOfLeaves(depth, parent, kids, n, top, n);
    forall i: nat | i < n ensures depth[i] >= 1 {
      ParentAfter(parent, kids, n, i);
    }
  }

  // ----- a balanced code -----

  lemma HalfHighBit(x: nat)
    requires x >= 2
    ensures HighBit(x) == HighBit(x / 2) + 1
  {
    hide HighBit, Pow2;
    var h := HighBit(x / 2);
    Pow2Step(h);
    Pow2Step(h + 1);
    HighBitUnique(x, h + 1);
  }

  /** Taken in turn, the nodes form a heap, last to first. */
  lemma {:induction false} HeapDepth(depth: seq<nat>, parent: seq<nat>, kids: seq<Kids>, order: seq<nat>, n: nat, j: nat)
    requires Tree(parent, kids, n) && Depths(depth, parent, n) && |order| == n && j < 2 * n - 1
    requires forall y: nat :: y < |kids| ==> kids[y] == Kids(Turn(order, 2 * y), Turn(order, 2 * y + 1))
    ensures Turn(order, j) < 2 * n - 1 && depth[Turn(order, j)] == HighBit(2 * n - 1 - j)
    decreases 2 * n - 1 - j
  {
    hide HighBit, Tree;
    if j == 2 * n - 2 {
      Pow2Values();
      HighBitUnique(1, 0);
    } else {
      TurnParent(parent, kids, order, n, j);
      HeapDepth(depth, parent, kids, order, n, n + j / 2);
      HalfHighBit(2 * n - 1 - j);
    }
  }

  lemma TurnParent(parent: seq<nat>, kids: seq<Kids>, order: seq<nat>, n: nat, j: nat)
    requires Tree(parent, kids, n) && |order| == n && j < 2 * n - 2
    requires forall y: nat :: y < |kids| ==> kids[y] == Kids(Turn(order, 2 * y), Turn(order, 2 * y + 1))
    ensures Turn(order, j) < 2 * n - 2 && parent[Turn(order, j)] == n + j / 2
  {
    hide Placed, Turn;
    var y := j / 2;
    assert kids[y] == Kids(Turn(order, 2 * y), Turn(order, 2 * y + 1));
  }

  /** So counts within a factor of two have codes of at most eight bits. */
  lemma FlatDepth(depth: seq<nat>, parent: seq<nat>, kids: seq<Kids>, order: seq<nat>, count: seq<nat>, n: nat, x: nat)
    requires Tree(parent, kids, n) && Depths(depth, parent, n) && |count| == n <= MAX_SYMBOLS && Ordered(order, count, n) && x < n
    requires forall y: nat :: y < |kids| ==> kids[y] == Kids(Turn(order, 2 * y), Turn(order, 2 * y + 1))
    ensures depth[x] <= 8
  {
    hide Tree, HighBit;
    var j := TurnOf(order, count, n, x);
    HeapDepth(depth, parent, kids, order, n, j);
    hide Depths;
    Pow2Values();
    HighBitBelow(2 * n - 1 - j, 8 + 1);
  }

  lemma TurnOf(order: seq<nat>, count: seq<nat>, n: nat, x: nat) returns (j: nat)
    requires |count| == n && Ordered(order, count, n) && x < n
    ensures j < n && Turn(order, j) == x
  {
    assert x in order;
    j :| j < n && order[j] == x;
  }
}
