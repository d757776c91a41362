/** Direct Huffman tree descriptions (section 4.2.1.1 of RFC 8878): four bits a
    weight, the last weight left out. The reader deduces it, and makes of every
    description the table of the writer's weights. */
module WeightDescription {
  import opened Arith
  import opened Wrappers
  import opened Huffman
  import opened HuffmanTree
  import opened HuffmanWeights
  import opened HuffmanCode
  import opened BlockFormat
  import opened LiteralsEncode

  // ----- the last weight -----

  /** All weights of a code, of which the last is not written. */
  function Deduced(explicit: seq<nat>): Result<(seq<nat>, nat), DecodeError> {
    if |explicit| == 0 || |explicit| > 255 then Err(BadHuffmanWeights)
    else
      var sum := WeightSum(explicit, |explicit|);
      if sum == 0 || HighBit(sum) + 1 > MAX_BITS then Err(BadHuffmanWeights)
      else
        var log := HighBit(sum) + 1;
        var left := Pow2(log) - sum;
        if left != Pow2(HighBit(left)) then Err(BadHuffmanWeights)
        else Ok((explicit + [HighBit(left) + 1], log))
  }

  lemma {:induction false} SumPrefix(weights: seq<nat>, more: seq<nat>, u: nat)
    requires u <= |weights|
    ensures WeightSum(weights + more, u) == WeightSum(weights, u)
  {
    if u > 0 {
      SumPrefix(weights, more, u - 1);
    }
  }

  lemma SumWithLast(explicit: seq<nat>, last: nat)
    requires last > 0
    ensures WeightSum(explicit + [last], |explicit| + 1) == WeightSum(explicit, |explicit|) + Pow2(last - 1)
  {
    SumPrefix(explicit, [last], |explicit|);
  }

  /** A weight's share is part of the sum. */
  lemma {:induction false} ShareInSum(weights: seq<nat>, u: nat, s: nat)
    requires s < u <= |weights| && weights[s] > 0
    ensures Pow2(weights[s] - 1) <= WeightSum(weights, u)
  {
    if s < u - 1 {
      ShareInSum(weights, u - 1, s);
    }
  }

  /** Weights are accepted exactly when a last one completes them, and it is the one
      that is deduced. */
  lemma DeducedIs(explicit: seq<nat>, last: nat, log: nat)
    requires last > 0 && |explicit| > 0
    ensures Deduced(explicit) == Ok((explicit + [last], log)) <==> Complete(explicit + [last], log)
    ensures Deduced(explicit) == Ok((explicit + [last], log)) <==>
      && 1 <= log <= 11 && |explicit| <= 255 && last <= log && (forall s :: 0 <= s < |explicit| ==> explicit[s] <= log)
      && WeightSum(explicit, |explicit|) + Pow2(last - 1) == Pow2(log)
  {
    hide Pow2, HighBit, WeightSum;
    SumWithLast(explicit, last);
    assert (explicit + [last])[|explicit|] == last && (explicit + [last])[..|explicit|] == explicit;
    if Deduced(explicit) == Ok((explicit + [last], log)) {
      assert (explicit + [last])[|explicit|] == last;
      var r := Deduced(explicit).value;
      assert r.0[|explicit|] == last;
      DeducedComplete(explicit);
    }
    if Complete(explicit + [last], log) {
      var all, sum := explicit + [last], WeightSum(explicit, |explicit|);
      assert all[|explicit|] == last;
      Pow2Step(log - 1);
      Pow2Mono(last - 1, log - 1);
      Pow2Positive(log - 1);
      HighBitUnique(sum, log - 1);
      Pow2Step(last - 1);
      HighBitUnique(Pow2(last - 1), last - 1);
    }
  }

  /** What is accepted is a complete code, and the last symbol has a code. */
  lemma DeducedComplete(explicit: seq<nat>)
    requires Deduced(explicit).Ok?
    ensures var (all, log) := Deduced(explicit).value;
      Complete(all, log) && |all| == |explicit| + 1 && all[..|explicit|] == explicit && all[|explicit|] > 0
  {
    hide Pow2, HighBit, WeightSum;
    var (all, log) := Deduced(explicit).value;
    var sum := WeightSum(explicit, |explicit|);
    var left := Pow2(log) - sum;
    SumWithLast(explicit, all[|explicit|]);
    Pow2Step(log - 1);
    if HighBit(left) >= log {
      Pow2Mono(log, HighBit(left));
      assert false;
    }
    forall s | 0 <= s < |all| ensures all[s] <= log {
      if s < |explicit| && all[s] > log {
        ShareInSum(explicit, |explicit|, s);
        Pow2Mono(log, all[s] - 1);
        assert false;
      }
    }
  }

  // ----- the description -----

  predicate Small(weights: seq<nat>) {
    forall i :: 0 <= i < |weights| ==> weights[i] < 16
  }

  /** Two weights in a byte; a missing one is zero. */
  function Pair(weights: seq<nat>, k: nat): byte
    requires 2 * k < |weights| && Small(weights)
  {
    16 * weights[2 * k] + (if 2 * k + 1 < |weights| then weights[2 * k + 1] else 0)
  }

  function Nibbles(weights: seq<nat>): (s: seq<byte>)
    requires Small(weights)
    ensures |s| == (|weights| + 1) / 2
    ensures forall k: nat :: k < |s| ==> s[k] == Pair(weights, k)
  {
    seq((|weights| + 1) / 2, k requires 0 <= k && 2 * k < |weights| && Small(weights) => Pair(weights, k))
  }

  lemma NibblesRead(weights: seq<nat>, i: nat)
    requires Small(weights) && i < |weights|
    ensures i / 2 < |Nibbles(weights)| && NibbleAt(Nibbles(weights), i) == weights[i]
  {
    hide Nibbles;
    assert Nibbles(weights)[i / 2] == Pair(weights, i / 2);
  }

  function NibbleAt(s: seq<byte>, i: nat): nat
    requires i / 2 < |s|
  {
    if i % 2 == 0 then s[i / 2] as nat / 16 else s[i / 2] as nat % 16
  }

  /** At most 128 weights; more need the compressed form. */
  function Described(explicit: seq<nat>): Option<seq<byte>> {
    if 0 < |explicit| <= 128 && Small(explicit) then Some([|explicit| + 127] + Nibbles(explicit)) else None
  }

  /** The reader's weights and the bytes they take. */
  function ParseDirect(data: seq<byte>): Result<(seq<nat>, nat), DecodeError> {
    if |data| == 0 || data[0] < 128 then Err(BadHuffmanWeights)
    else
      var n := data[0] - 127;
      if |data| < 1 + (n + 1) / 2 then Err(BadHuffmanWeights)
      else Ok((seq(n, i requires 0 <= i < n => NibbleAt(data[1..], i)), 1 + (n + 1) / 2))
  }

  /** A description is read back, whatever follows it. */
  lemma DescribedReads(explicit: seq<nat>, rest: seq<byte>)
    requires Described(explicit).Some?
    ensures ParseDirect(Described(explicit).value + rest) == Ok((explicit, |Described(explicit).value|))
  {
    var all, n := Nibbles(explicit), |explicit|;
    hide Nibbles, Small;
    var data := [n + 127] + all + rest;
    assert data == Described(explicit).value + rest;
    forall i: nat | i < n ensures NibbleAt(data[1..], i) == explicit[i] {
      NibblesRead(explicit, i);
      assert data[1..][i / 2] == all[i / 2];
    }
    assert ParseDirect(data).value.0 == explicit;
  }

  // ----- both sides -----

  /** The table that a description's weights stand for. */
  ghost function TableFor(explicit: seq<nat>): Result<HufTable, DecodeError> {
    match Deduced(explicit)
    case Err(e) => Err(e)
    case Ok((all, log)) =>
      DeducedComplete(explicit);
      Ok(CanonicalTable(all, log))
  }

  ghost function DirectCode(): WeightCode {
    WeightCode(ParseDirect, TableFor)
  }

  /** Direct descriptions meet what the block codec asks of them: they are parsed
      locally into usable tables, and the reader's table is the writer's. */
  lemma DirectAgrees()
    ensures Sound(DirectCode()) && Agrees(DirectCode(), Described)
  {
    hide CanonicalTable, Complete, Deduced;
    var c := DirectCode();
    forall a, b | c.parse(a).Ok? && StartsWith(b, a, c.parse(a).value.1) ensures c.parse(b) == c.parse(a) {
      ParseLocal(a, b);
    }
    forall w | c.build(w).Ok? ensures UsableTable(c.build(w).value) {
      DeducedComplete(w);
      CanonicalUsable(Deduced(w).value.0, Deduced(w).value.1);
    }
    forall weights, log | Complete(weights, log) && EndsInCode(weights) && Described(Front(weights)).Some?
      ensures Announced(c, Described(Front(weights)).value, weights, log)
    {
      var explicit, last := Front(weights), weights[|weights| - 1];
      assert weights == explicit + [last];
      DescribedReads(explicit, []);
      assert Described(explicit).value + [] == Described(explicit).value;
      DeducedIs(explicit, last, log);
    }
  }

  lemma ParseLocal(a: seq<byte>, b: seq<byte>)
    requires ParseDirect(a).Ok? && StartsWith(b, a, ParseDirect(a).value.1)
    ensures ParseDirect(b) == ParseDirect(a)
  {
    var used := ParseDirect(a).value.1;
    assert forall i :: 0 <= i < used ==> b[..used][i] == a[..used][i];
    var n := a[0] - 127;
    forall i: nat | i < n ensures NibbleAt(b[1..], i) == NibbleAt(a[1..], i) {
      assert 1 + i / 2 < used;
    }
    assert ParseDirect(b).value.0 == ParseDirect(a).value.0;
  }

  /** So every complete code of up to 129 symbols reaches the reader, whatever
      follows its description. */
  lemma CodeReachesReader(weights: seq<nat>, log: nat, rest: seq<byte>)
    requires Complete(weights, log) && EndsInCode(weights) && 2 <= |weights| <= 129
    ensures Described(Front(weights)).Some?
    ensures ParseDirect(Described(Front(weights)).value + rest) == Ok((Front(weights), |Described(Front(weights)).value|))
    ensures TableFor(Front(weights)) == Ok(CanonicalTable(weights, log))
  {
    hide CanonicalTable, Deduced, ParseDirect;
    var explicit, last := Front(weights), weights[|weights| - 1];
    assert weights == explicit + [last];
    DescribedReads(explicit, rest);
    DeducedIs(explicit, last, log);
  }

  // ----- the loops -----

  method DescribeWeights(explicit: seq<nat>) returns (r: Option<seq<byte>>)
    requires Small(explicit)
    ensures |explicit| > 0 ==> r == Described(explicit)
  {
    if |explicit| > 128 {
      return None;
    }
    ghost var all := Nibbles(explicit);
    hide Nibbles, Pair, Small;
    var out: seq<byte> := [|explicit| + 127];
    for k: nat := 0 to (|explicit| + 1) / 2
      invariant out == [|explicit| + 127] + all[..k]
    {
      out := out + [Pair(explicit, k)];
      assert all[..k + 1] == all[..k] + [all[k]];
    }
    assert all[..|all|] == all;
    return Some(out);
  }

  method ParseDirectWeights(data: seq<byte>) returns (r: Result<(seq<nat>, nat), DecodeError>)
    ensures r == ParseDirect(data)
  {
    if |data| == 0 || data[0] < 128 {
      return Err(BadHuffmanWeights);
    }
    var n := data[0] - 127;
    var numBytes := (n + 1) / 2;
    if |data| < 1 + numBytes {
      return Err(BadHuffmanWeights);
    }
    var weights: seq<nat> := [];
    for i: nat := 0 to n
      invariant |weights| == i && forall j: nat :: j < i ==> weights[j] == NibbleAt(data[1..], j)
    {
      var b := data[1 + i / 2] as nat;
      weights := weights + [if i % 2 == 0 then b / 16 else b % 16];
    }
    r := Ok((weights, 1 + numBytes));
    assert weights == ParseDirect(data).value.0;
  }

  method SumWeights(weights: seq<nat>) returns (sum: nat)
    ensures sum == WeightSum(weights, |weights|)
  {
    sum := 0;
    for i := 0 to |weights|
      invariant sum == WeightSum(weights, i)
    {
      if weights[i] > 0 {
        sum := sum + Pow2(weights[i] - 1);
      }
    }
  }

  /** The rows of the first `n` symbols are filled in. */
  ghost predicate Filled(rows: seq<HufEntry>, weights: seq<nat>, log: nat, n: nat)
    requires |weights| <= 256
  {
    forall u: nat, i: nat :: u < n && Owns(weights, log, u, i) ==> i < |rows| && rows[i] == HufEntry(u, log + 1 - weights[u])
  }

  /** Builds the decoding table: the last weight is deduced, ranks are counted and
      each symbol's rows are filled from its rank's next row. */
  method BuildDecodeTable(explicit: seq<nat>) returns (r: Result<HufTable, DecodeError>)
    ensures r == TableFor(explicit)
  {
    hide CanonicalTable, Complete, WeightSum, Pow2, Shl, RanksAre, Start, Owns, HighBit;
    if |explicit| == 0 || |explicit| > 255 {
      return Err(BadHuffmanWeights);
    }
    var sum := SumWeights(explicit);
    if sum == 0 || HighBit(sum) + 1 > MAX_BITS {
      return Err(BadHuffmanWeights);
    }
    var log := HighBit(sum) + 1;
    var left := Pow2(log) - sum;
    if left != Pow2(HighBit(left)) {
      return Err(BadHuffmanWeights);
    }
    var weights := explicit + [HighBit(left) + 1];
    DeducedComplete(explicit);
    var rows := FillRows(weights, log);
    return Ok(HufTable(rows, log));
  }

  method FillRows(weights: seq<nat>, log: nat) returns (rows: seq<HufEntry>)
    requires Complete(weights, log)
    ensures HufTable(rows, log) == CanonicalTable(weights, log)
  {
    WeightsBounded(weights, log);
    hide CanonicalTable, Complete, WeightSum, Pow2, Shl, RanksAre, Start, Owns, Filled;
    var rankCount := CountRanks(weights, log);
    var rankStart: seq<nat> := StartRanks(rankCount, weights, log);
    var table := new HufEntry[Pow2(log)](_ => HufEntry(0, 0));
    assert Filled(table[..], weights, log, 0) by { NoneFilled(table[..], weights, log); }
    for s: nat := 0 to |weights|
      invariant table.Length == Pow2(log) && |rankStart| == log + 2 && RanksAre(rankStart, weights, s, log)
      invariant Filled(table[..], weights, log, s)
    {
      rankStart := FillSymbol(table, rankStart, weights, log, s);
    }
    rows := table[..];
    AllFilled(rows, weights, log);
  }

  /** One symbol's rows, from its rank's next row. */
  method FillSymbol(table: array<HufEntry>, rankStart: seq<nat>, weights: seq<nat>, log: nat, s: nat) returns (rankStart': seq<nat>)
    requires Complete(weights, log) && s < |weights| <= 256 && table.Length == Pow2(log) && |rankStart| == log + 2
    requires RanksAre(rankStart, weights, s, log) && Filled(table[..], weights, log, s)
    modifies table
    ensures |rankStart'| == log + 2 && RanksAre(rankStart', weights, s + 1, log) && Filled(table[..], weights, log, s + 1)
  {
    WeightsBounded(weights, log);
    hide *;
    rankStart' := rankStart;
    RanksStep(rankStart, weights, s, log);
    ghost var before := table[..];
    var w := weights[s];
    if w != 0 {
      RowsFit(weights, log, s);
      Fill(table, rankStart[w], Pow2(w - 1), HufEntry(s, log + 1 - w));
      ShlOne(w - 1);
      rankStart' := rankStart[w := rankStart[w] + Shl(1, w - 1)];
    }
    FilledStep(before, table[..], weights, log, s);
  }

  lemma NoneFilled(rows: seq<HufEntry>, weights: seq<nat>, log: nat)
    requires |weights| <= 256
    ensures Filled(rows, weights, log, 0)
  {
  }

  /** `n` equal rows. */
  method Fill(table: array<HufEntry>, start: nat, n: nat, entry: HufEntry)
    requires start + n <= table.Length
    modifies table
    ensures table[..] == old(table[..start]) + Rows(entry.symbol, entry.bits, n) + old(table[start + n..])
  {
    ghost var rows := Rows(entry.symbol, entry.bits, n);
    for j := 0 to n
      invariant table[..start + j] == old(table[..start]) + rows[..j]
      invariant table[start + n..] == old(table[start + n..])
    {
      table[start + j] := entry;
      assert rows[..j + 1] == rows[..j] + [entry];
    }
    assert table[..] == table[..start + n] + table[start + n..];
  }

  /** A symbol's rows are in the table. */
  lemma RowsFit(weights: seq<nat>, log: nat, s: nat)
    requires Complete(weights, log) && s < |weights| && weights[s] > 0
    ensures Start(weights, s) + Pow2(weights[s] - 1) <= Pow2(log)
  {
    hide CanonicalTable, Start;
    Pow2Positive(weights[s] - 1);
    var last := Start(weights, s) + Pow2(weights[s] - 1) - 1;
    OwnedRow(weights, log, s, last);
    CanonicalSize(weights, log);
  }

  /** No two symbols own a row, so filling one's leaves the others'. */
  lemma FilledStep(before: seq<HufEntry>, rows: seq<HufEntry>, weights: seq<nat>, log: nat, s: nat)
    requires Complete(weights, log) && s < |weights| <= 256 && Filled(before, weights, log, s) && |before| == |rows| == Pow2(log)
    requires weights[s] == 0 ==> rows == before
    requires weights[s] > 0 ==>
      var first, n := Start(weights, s), Pow2(weights[s] - 1);
      first + n <= |rows| && rows == before[..first] + Rows(s, log + 1 - weights[s], n) + before[first + n..]
    ensures Filled(rows, weights, log, s + 1)
  {
    WeightsBounded(weights, log);
    hide CanonicalTable, Complete, Start, Pow2;
    forall u: nat, i: nat | u < s + 1 && Owns(weights, log, u, i)
      ensures i < |rows| && rows[i] == HufEntry(u, log + 1 - weights[u])
    {
      OwnedRow(weights, log, u, i);
      CanonicalSize(weights, log);
      var first, n := if weights[s] > 0 then Start(weights, s) else 0, if weights[s] > 0 then Pow2(weights[s] - 1) else 0;
      if u == s {
        assert rows[i] == Rows(s, log + 1 - weights[s], n)[i - first];
      } else {
        assert before[i] == HufEntry(u, log + 1 - weights[u]);
        if first <= i < first + n {
          OwnedRow(weights, log, s, i);
          assert false;
        }
        assert rows[i] == before[i];
      }
    }
  }

  lemma AllFilled(rows: seq<HufEntry>, weights: seq<nat>, log: nat)
    requires Complete(weights, log) && |rows| == Pow2(log) && |weights| <= 256 && Filled(rows, weights, log, |weights|)
    ensures HufTable(rows, log) == CanonicalTable(weights, log)
  {
    hide Complete, Start, Pow2, Owns, RowsTo;
    var t := CanonicalTable(weights, log);
    CanonicalSize(weights, log);
    AtMost256(weights, log);
    forall i: nat | i < |rows| ensures rows[i] == t.rows[i] {
      var s := RowOwner(weights, log, log, |weights|, i);
      assert Owns(weights, log, s, i) && s < |weights| by { OwnerIsSymbol(weights, log, s, i); }
    }
    assert rows == t.rows;
  }

  lemma OwnerIsSymbol(weights: seq<nat>, log: nat, s: nat, i: nat)
    requires Owns(weights, log, s, i)
    ensures s < |weights|
  {
  }
}
