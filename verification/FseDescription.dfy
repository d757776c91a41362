/** FSE table descriptions (section 4.1.1 of RFC 8878): serializing a
    distribution, parsing it from 64-bit windows, and the round trip. */
module FseDescription {
  import opened Arith
  import opened Bits
  import opened Wrappers
  import opened FseSpread

  const MAX_TABLE_LOG: nat := 12

  /** A parsed description: the distribution, its log, and the bits left after it. */
  datatype Description = Description(dist: seq<int>, log: nat, left: nat)

  // ----- reading, bit by bit -----

  /** A count read from the low bits, and the bits it takes. */
  datatype Count = Count(count: nat, used: nat)

  /** Counts up to `r` take the bits of `r` or one less: those below `maxVal` are
      told apart without the top one. */
  function CountAt(v: nat, r: nat): (c: Count)
    requires r > 1
    ensures c.used <= HighBit(r) + 1
  {
    var h := HighBit(r);
    var threshold := Pow2(h);
    var maxVal := 2 * threshold - 1 - r;
    var lower, full := Low(v, h), Low(v, h + 1);
    assert Pow2(h + 1) == 2 * Pow2(h);
    if lower < maxVal then Count(lower, h)
    else if full >= threshold then Count(full - maxVal, h + 1)
    else Count(full, h + 1)
  }

  /** A run of zero probabilities: two-bit codes, each three adding three zeros and
      going on. The zeros, and the bits left after it. */
  function ReadRun(v: nat, left: nat): (r: Option<(nat, nat)>)
    ensures r.Some? ==> r.value.1 < left
  {
    if left < 2 then None
    else if Low(v, 2) < 3 then Some((Low(v, 2), left - 2))
    else
      match ReadRun(Shr(v, 2), left - 2)
      case None => None
      case Some((zeros, rest)) => Some((zeros + 3, rest))
  }

  function Zeros(n: nat): (z: seq<int>)
    ensures |z| == n && forall i :: 0 <= i < n ==> z[i] == 0
  {
    seq(n, _ => 0)
  }

  function Abs(x: int): nat {
    if x < 0 then -x else x
  }

  /** Probabilities until `r - 1` cells are taken or the symbols run out. */
  function ParseProbs(v: nat, left: nat, r: nat, probs: seq<int>, maxLen: nat): (res: Result<(seq<int>, nat), DecodeError>)
    requires |probs| <= maxLen
    ensures res.Ok? ==> |res.value.0| <= maxLen && res.value.1 <= left
    decreases maxLen - |probs|
  {
    if r <= 1 || |probs| == maxLen then
      if r == 1 then Ok((probs, left)) else Err(BadFseTable)
    else
      var c := CountAt(v, r);
      if c.used > left then Err(InputExhausted)
      else
        var prob := c.count - 1;
        if Abs(prob) > r then Err(BadFseTable)
        else
          var v', left', r' := Shr(v, c.used), left - c.used, r - Abs(prob);
          if prob != 0 then ParseProbs(v', left', r', probs + [prob], maxLen)
          else
            match ReadRun(v', left')
            case None => Err(InputExhausted)
            case Some((zeros, rest)) =>
              var all := probs + Zeros(zeros + 1);
              ParseProbs(Shr(v', left' - rest), rest, r', all[..Min(|all|, maxLen)], maxLen)
  }

  /** Zeros after the last probability that is written. */
  function Pad(dist: seq<int>, n: nat): (p: seq<int>)
    requires |dist| <= n
    ensures |p| == n
  {
    dist + Zeros(n - |dist|)
  }

  /** A description in the low `left` bits of `v`. */
  function Parse(v: nat, left: nat, maxSymbol: nat): Result<Description, DecodeError> {
    if left < 4 then Err(InputExhausted)
    else
      var log := Low(v, 4) + 5;
      if log > MAX_TABLE_LOG then Err(BadFseTable)
      else
        match ParseProbs(Shr(v, 4), left - 4, Pow2(log) + 1, [], maxSymbol + 1)
        case Err(e) => Err(e)
        case Ok((probs, rest)) => Ok(Description(Pad(probs, maxSymbol + 1), log, rest))
  }

  /** A description is rejected for its accuracy log exactly when that is over 12; else
      it stands or falls with its probabilities. */
  lemma LogLimit(v: nat, left: nat, maxSymbol: nat)
    requires left >= 4
    ensures var log, r := Low(v, 4) + 5, Parse(v, left, maxSymbol);
      && (log > 12 ==> r == Err(BadFseTable))
      && (log <= 12 ==> (r.Ok? <==> ParseProbs(Shr(v, 4), left - 4, Pow2(log) + 1, [], maxSymbol + 1).Ok?))
      && (r.Ok? ==> r.value.log == log && |r.value.dist| == maxSymbol + 1)
  {
    hide ParseProbs, Low, Shr, Pow2;
  }

  // ----- writing -----

  /** `n` bits of value `val`. */
  datatype BitField = BitField(val: nat, n: nat)

  ghost predicate Fit(fs: seq<BitField>) {
    forall i :: 0 <= i < |fs| ==> fs[i].val < Pow2(fs[i].n)
  }

  /** The bits of fields written in order, the first lowest. */
  function Value(fs: seq<BitField>): nat {
    if |fs| == 0 then 0 else fs[0].val + Shl(Value(fs[1..]), fs[0].n)
  }

  function BitLen(fs: seq<BitField>): nat {
    if |fs| == 0 then 0 else fs[0].n + BitLen(fs[1..])
  }

  function CountField(count: nat, r: nat): BitField
    requires r > 1
  {
    var h := HighBit(r);
    var threshold := Pow2(h);
    var maxVal := 2 * threshold - 1 - r;
    assert Pow2(h + 1) == 2 * Pow2(h);
    if count < maxVal then BitField(count, h)
    else if count < threshold then BitField(count, h + 1)
    else BitField(count + maxVal, h + 1)
  }

  function RunFields(zeros: nat): seq<BitField> {
    if zeros >= 3 then [BitField(3, 2)] + RunFields(zeros - 3) else [BitField(zeros, 2)]
  }

  /** Zeros from `i` on. */
  function ZeroRun(dist: seq<int>, i: nat): (n: nat)
    requires i <= |dist|
    ensures i + n <= |dist| && forall j :: i <= j < i + n ==> dist[j] == 0
    decreases |dist| - i
  {
    if i < |dist| && dist[i] == 0 then 1 + ZeroRun(dist, i + 1) else 0
  }

  /** The fields of the probabilities from `i` on, with `r - 1` cells left. */
  function ProbFields(dist: seq<int>, i: nat, r: nat): seq<BitField>
    requires i <= |dist| && forall j :: 0 <= j < |dist| ==> dist[j] >= -1
    decreases |dist| - i
  {
    if i == |dist| || r <= 1 then []
    else
      var field := CountField(dist[i] + 1, r);
      var zeros := ZeroRun(dist, i + 1);
      if dist[i] == 0 then [field] + RunFields(zeros) + ProbFields(dist, i + 1 + zeros, r)
      else if Abs(dist[i]) > r then [field]
      else [field] + ProbFields(dist, i + 1, r - Abs(dist[i]))
  }

  function DescriptionFields(dist: seq<int>, log: nat): seq<BitField>
    requires log >= 5 && forall j :: 0 <= j < |dist| ==> dist[j] >= -1
  {
    [BitField(log - 5, 4)] + ProbFields(dist, 0, Pow2(log) + 1)
  }

  // ----- the round trip -----

  /** A count is read back from its field, whatever follows. */
  lemma CountRoundTrip(count: nat, r: nat, rest: nat)
    requires r > 1 && count <= r
    ensures var f := CountField(count, r);
      && f.val < Pow2(f.n)
      && CountAt(f.val + Shl(rest, f.n), r) == Count(count, f.n)
      && Shr(f.val + Shl(rest, f.n), f.n) == rest
  {
    hide Shl, Shr, Low, Pow2, HighBit;
    var h := HighBit(r);
    Pow2Step(h);
    var f := CountField(count, r);
    SplitUnique(f.val, rest, f.n);
    if f.n == h + 1 {
      ShlStep(rest, h);
      LowLow(f.val + Shl(rest, f.n), h, h + 1);
      if f.val < Pow2(h) {
        LowOfSmall(f.val, h);
      } else {
        ShlOne(h);
        SplitUnique(f.val - Pow2(h), 1, h);
      }
    }
  }

  /** A field in front of others. */
  lemma FieldInFront(f: BitField, fs: seq<BitField>, rest: nat)
    ensures Value([f] + fs) + Shl(rest, BitLen([f] + fs)) == f.val + Shl(Value(fs) + Shl(rest, BitLen(fs)), f.n)
    ensures BitLen([f] + fs) == f.n + BitLen(fs)
  {
    assert ([f] + fs)[1..] == fs;
    ShlShl(rest, BitLen(fs), f.n);
    ShlAdd(Value(fs), Shl(rest, BitLen(fs)), f.n);
  }

  lemma {:induction false} BitsConcat(a: seq<BitField>, b: seq<BitField>)
    ensures BitLen(a + b) == BitLen(a) + BitLen(b)
    ensures Value(a + b) == Value(a) + Shl(Value(b), BitLen(a))
  {
    if |a| == 0 {
      assert a + b == b;
    } else {
      assert (a + b)[1..] == a[1..] + b;
      BitsConcat(a[1..], b);
      ShlShl(Value(b), BitLen(a[1..]), a[0].n);
      ShlAdd(Value(a[1..]), Shl(Value(b), BitLen(a[1..])), a[0].n);
    }
  }

  lemma TwoBits(x: nat, rest: nat)
    requires x < 4
    ensures Low(x + Shl(rest, 2), 2) == x && Shr(x + Shl(rest, 2), 2) == rest
  {
    Pow2Values();
    SplitUnique(x, rest, 2);
  }

  /** A run is read back, whatever follows. */
  lemma {:induction false} RunRoundTrip(zeros: nat, rest: nat, extra: nat)
    ensures var fs := RunFields(zeros);
      && ReadRun(Value(fs) + Shl(rest, BitLen(fs)), BitLen(fs) + extra) == Some((zeros, extra))
      && Shr(Value(fs) + Shl(rest, BitLen(fs)), BitLen(fs)) == rest
  {
    hide Shl, Shr, Low;
    if zeros >= 3 {
      var fs := RunFields(zeros - 3);
      RunRoundTrip(zeros - 3, rest, extra);
      FieldInFront(BitField(3, 2), fs, rest);
      TwoBits(3, Value(fs) + Shl(rest, BitLen(fs)));
      ShrShr(Value(RunFields(zeros)) + Shl(rest, BitLen(RunFields(zeros))), 2, BitLen(fs));
    } else {
      FieldInFront(BitField(zeros, 2), [], rest);
      assert [BitField(zeros, 2)] + [] == [BitField(zeros, 2)];
      ShlAt0(rest);
      TwoBits(zeros, rest);
    }
  }

  lemma ShlAt0(x: nat)
    ensures Shl(x, 0) == x
  {
  }

  /** With every cell taken, only zeros are left. */
  lemma {:induction false} RestIsZero(dist: seq<int>, i: nat, n: nat, log: nat)
    requires Fills(dist, log) && i <= n <= |dist| && TotalCells(dist, i) == Pow2(log)
    ensures TotalCells(dist, n) == Pow2(log) && forall j :: i <= j < n ==> dist[j] == 0
  {
    TotalMono(dist, n, |dist|);
    TotalMono(dist, i, n);
    if i < n {
      RestIsZero(dist, i, n - 1, log);
    }
  }

  lemma {:induction false} TotalMono(dist: seq<int>, i: nat, n: nat)
    requires i <= n <= |dist|
    ensures TotalCells(dist, i) <= TotalCells(dist, n)
  {
    if i < n {
      TotalMono(dist, i, n - 1);
    }
  }

  lemma {:induction false} TotalOfZeros(dist: seq<int>, i: nat, n: nat)
    requires i <= n <= |dist| && forall j :: i <= j < n ==> dist[j] == 0
    ensures TotalCells(dist, i) == TotalCells(dist, n)
  {
    if i < n {
      TotalOfZeros(dist, i, n - 1);
    }
  }

  /** What a probability takes of the cells left. */
  lemma ProbCost(dist: seq<int>, i: nat, log: nat)
    requires Fills(dist, log) && i < |dist|
    ensures dist[i] >= -1 && TotalCells(dist, i + 1) == TotalCells(dist, i) + Abs(dist[i]) <= Pow2(log)
  {
    TotalMono(dist, i + 1, |dist|);
  }

  lemma PadPrefix(dist: seq<int>, i: nat, n: nat)
    requires i <= |dist| <= n && forall j :: i <= j < |dist| ==> dist[j] == 0
    ensures Pad(dist[..i], n) == Pad(dist, n)
  {
  }

  /** What parsing from a bit position on must give: the distribution, and the
      bits after its fields. */
  ghost predicate ParsesTo(res: Result<(seq<int>, nat), DecodeError>, dist: seq<int>, n: nat, extra: nat)
    requires |dist| <= n
  {
    res.Ok? && |res.value.0| <= n && Pad(res.value.0, n) == Pad(dist, n) && res.value.1 == extra
  }

  /** The probabilities from `i` on are read back from their fields. */
  lemma {:induction false} ProbsRoundTrip(dist: seq<int>, i: nat, r: nat, log: nat, rest: nat, extra: nat, n: nat)
    requires Fills(dist, log) && i <= |dist| <= n && r == Pow2(log) + 1 - TotalCells(dist, i)
    ensures var fs := ProbFields(dist, i, r);
      ParsesTo(ParseProbs(Value(fs) + Shl(rest, BitLen(fs)), BitLen(fs) + extra, r, dist[..i], n), dist, n, extra)
    decreases |dist| - i
  {
    hide Shl, Shr, Low, Pow2, HighBit, CountField, RunFields, Cells, Value, BitLen, ParseProbs, ParsesTo;
    var fs := ProbFields(dist, i, r);
    TotalMono(dist, i, |dist|);
    if r == 1 {
      AllTaken(dist, i, log, rest, extra, n);
    } else {
      ProbCost(dist, i, log);
      if dist[i] == 0 {
        ZeroRoundTrip(dist, i, r, log, rest, extra, n);
      } else {
        var field, tail := CountField(dist[i] + 1, r), ProbFields(dist, i + 1, r - Abs(dist[i]));
        assert fs == [field] + tail;
        FieldInFront(field, tail, rest);
        ParseProb(dist[i], r, Value(tail) + Shl(rest, BitLen(tail)), BitLen(tail) + extra, dist[..i], n);
        ProbsRoundTrip(dist, i + 1, r - Abs(dist[i]), log, rest, extra, n);
        assert dist[..i] + [dist[i]] == dist[..i + 1];
      }
    }
  }

  lemma ParseProb(prob: int, r: nat, after: nat, more: nat, probs: seq<int>, n: nat)
    requires r > 1 && |probs| < n && prob >= -1 && prob != 0 && prob < r
    ensures var field := CountField(prob + 1, r);
      ParseProbs(field.val + Shl(after, field.n), field.n + more, r, probs, n)
      == ParseProbs(after, more, r - Abs(prob), probs + [prob], n)
  {
    hide Shl, Shr, Low, Pow2, HighBit, CountAt, CountField, ReadRun, ParseProbs;
    var field := CountField(prob + 1, r);
    CountRoundTrip(prob + 1, r, after);
    ParseStep(field.val + Shl(after, field.n), field.n + more, r, probs, n, Count(prob + 1, field.n));
  }

  lemma AllTaken(dist: seq<int>, i: nat, log: nat, rest: nat, extra: nat, n: nat)
    requires Fills(dist, log) && i <= |dist| <= n && TotalCells(dist, i) == Pow2(log)
    ensures ProbFields(dist, i, 1) == []
    ensures ParsesTo(ParseProbs(Value([]) + Shl(rest, BitLen([])), BitLen([]) + extra, 1, dist[..i], n), dist, n, extra)
  {
    hide Shl, Pow2, Pad, TotalCells;
    RestIsZero(dist, i, |dist|, log);
    PadPrefix(dist, i, n);
    NoFields(rest);
  }

  lemma NoFields(rest: nat)
    ensures Value([]) == 0 && BitLen([]) == 0 && Shl(rest, 0) == rest
  {
  }

  lemma ParseStep(v: nat, left: nat, r: nat, probs: seq<int>, n: nat, c: Count)
    requires r > 1 && |probs| < n && CountAt(v, r) == c && c.used <= left && Abs(c.count - 1) <= r
    ensures c.count != 1 ==>
      ParseProbs(v, left, r, probs, n) ==
      ParseProbs(Shr(v, c.used), left - c.used, r - Abs(c.count - 1), probs + [c.count - 1], n)
    ensures c.count == 1 ==>
      match ReadRun(Shr(v, c.used), left - c.used)
      case None => ParseProbs(v, left, r, probs, n) == Err(InputExhausted)
      case Some((zeros, rest)) =>
        var all := probs + Zeros(zeros + 1);
        ParseProbs(v, left, r, probs, n)
          == ParseProbs(Shr(Shr(v, c.used), left - c.used - rest), rest, r, all[..Min(|all|, n)], n)
  {
    hide Shr, CountAt, ReadRun;
  }

  lemma ParseHas(v: nat, left: nat, r: nat, probs: seq<int>, n: nat)
    requires r > 1 && |probs| < n && ParseProbs(v, left, r, probs, n).Ok?
    ensures CountAt(v, r).used <= left && Abs(CountAt(v, r).count - 1) <= r
  {
    hide Shr, CountAt, ReadRun;
  }

  lemma ParseEnds(v: nat, left: nat, r: nat, probs: seq<int>, n: nat)
    requires |probs| <= n && (r <= 1 || |probs| == n)
    ensures ParseProbs(v, left, r, probs, n) == if r == 1 then Ok((probs, left)) else Err(BadFseTable)
  {
  }

  /** A zero and its run are read back, whatever follows. */
  lemma ParseZero(zeros: nat, after: nat, more: nat, r: nat, probs: seq<int>, n: nat)
    requires r > 1 && |probs| < n
    ensures var field, run, all := CountField(1, r), RunFields(zeros), probs + Zeros(zeros + 1);
      ParseProbs(field.val + Shl(Value(run) + Shl(after, BitLen(run)), field.n), field.n + BitLen(run) + more, r, probs, n)
      == ParseProbs(after, more, r, all[..Min(|all|, n)], n)
  {
    hide Shl, Shr, Low, Pow2, HighBit, CountAt, CountField, ReadRun, RunFields, ParseProbs, Value, BitLen;
    var field, run := CountField(1, r), RunFields(zeros);
    CountRoundTrip(1, r, Value(run) + Shl(after, BitLen(run)));
    RunRoundTrip(zeros, after, more);
    ParseStep(field.val + Shl(Value(run) + Shl(after, BitLen(run)), field.n), field.n + BitLen(run) + more, r, probs, n,
              Count(1, field.n));
  }

  /** Where a zero's fields are among the bits. */
  lemma ZeroFields(dist: seq<int>, i: nat, r: nat, rest: nat)
    requires i < |dist| && r > 1 && dist[i] == 0 && forall j :: 0 <= j < |dist| ==> dist[j] >= -1
    ensures var fs, field, zeros := ProbFields(dist, i, r), CountField(1, r), ZeroRun(dist, i + 1);
      var run, tail := RunFields(zeros), ProbFields(dist, i + 1 + zeros, r);
      var after := Value(tail) + Shl(rest, BitLen(tail));
      && BitLen(fs) == field.n + BitLen(run) + BitLen(tail)
      && Value(fs) + Shl(rest, BitLen(fs)) == field.val + Shl(Value(run) + Shl(after, BitLen(run)), field.n)
  {
    hide Shl, Shr, Low, Pow2, HighBit, CountField, RunFields, Value, BitLen;
    var field, zeros := CountField(1, r), ZeroRun(dist, i + 1);
    var run, tail := RunFields(zeros), ProbFields(dist, i + 1 + zeros, r);
    assert ProbFields(dist, i, r) == [field] + (run + tail);
    FieldInFront(field, run + tail, rest);
    RunInFront(run, tail, rest);
  }

  lemma {:induction false} ZeroRoundTrip(dist: seq<int>, i: nat, r: nat, log: nat, rest: nat, extra: nat, n: nat)
    requires Fills(dist, log) && i < |dist| <= n && r == Pow2(log) + 1 - TotalCells(dist, i) && r > 1 && dist[i] == 0
    ensures var fs := ProbFields(dist, i, r);
      ParsesTo(ParseProbs(Value(fs) + Shl(rest, BitLen(fs)), BitLen(fs) + extra, r, dist[..i], n), dist, n, extra)
    decreases |dist| - i, 0
  {
    hide Shl, Shr, Low, Pow2, HighBit, CountField, RunFields, ParseProbs, Value, BitLen, ProbFields, ParsesTo;
    var zeros := ZeroRun(dist, i + 1);
    var tail := ProbFields(dist, i + 1 + zeros, r);
    ZeroFields(dist, i, r, rest);
    ParseZero(zeros, Value(tail) + Shl(rest, BitLen(tail)), BitLen(tail) + extra, r, dist[..i], n);
    TotalOfZeros(dist, i, i + 1 + zeros);
    ProbsRoundTrip(dist, i + 1 + zeros, r, log, rest, extra, n);
    ghost var all := dist[..i] + Zeros(zeros + 1);
    assert all[..Min(|all|, n)] == dist[..i + 1 + zeros];
  }

  lemma RunInFront(run: seq<BitField>, tail: seq<BitField>, rest: nat)
    ensures BitLen(run + tail) == BitLen(run) + BitLen(tail)
    ensures Value(run + tail) + Shl(rest, BitLen(run + tail))
      == Value(run) + Shl(Value(tail) + Shl(rest, BitLen(tail)), BitLen(run))
  {
    hide Shl, Value, BitLen;
    BitsConcat(run, tail);
    ShlShl(rest, BitLen(tail), BitLen(run));
    ShlAdd(Value(tail), Shl(rest, BitLen(tail)), BitLen(run));
  }

  /** The description round trip, whatever follows the description: the
      distribution comes back padded with zeros, and exactly its fields are read. */
  lemma DescriptionRoundTrip(dist: seq<int>, log: nat, rest: nat, extra: nat, maxSymbol: nat)
    requires 5 <= log <= MAX_TABLE_LOG && Fills(dist, log) && |dist| <= maxSymbol + 1
    ensures var fs := DescriptionFields(dist, log);
      Parse(Value(fs) + Shl(rest, BitLen(fs)), BitLen(fs) + extra, maxSymbol)
        == Ok(Description(Pad(dist, maxSymbol + 1), log, extra))
  {
    hide Shl, Shr, Low, Pow2, ParseProbs, ProbFields, Value, BitLen, Pad;
    var header := BitField(log - 5, 4);
    var fs := ProbFields(dist, 0, Pow2(log) + 1);
    FieldInFront(header, fs, rest);
    ProbsRoundTrip(dist, 0, Pow2(log) + 1, log, rest, extra, maxSymbol + 1);
    HeaderRoundTrip(log - 5, Value(fs) + Shl(rest, BitLen(fs)));
    assert dist[..0] == [];
  }

  lemma HeaderRoundTrip(x: nat, rest: nat)
    requires x < 16
    ensures Low(x + Shl(rest, 4), 4) == x && Shr(x + Shl(rest, 4), 4) == rest
  {
    Pow2Values();
    SplitUnique(x, rest, 4);
  }

  // ----- a description does not depend on what follows it -----

  lemma CountLocal(v: nat, w: nat, r: nat)
    requires r > 1 && Low(w, CountAt(v, r).used) == Low(v, CountAt(v, r).used)
    ensures CountAt(w, r) == CountAt(v, r)
  {
    hide Low, Pow2, HighBit;
    var h := HighBit(r);
    if CountAt(v, r).used == h + 1 {
      LowLow(v, h, h + 1);
      LowLow(w, h, h + 1);
    }
  }

  /** Equal low bits stay equal past a field. */
  lemma LowPast(v: nat, w: nat, a: nat, b: nat)
    requires Low(v, a + b) == Low(w, a + b)
    ensures Low(v, a) == Low(w, a) && Low(Shr(v, a), b) == Low(Shr(w, a), b)
  {
    hide Low, Shr;
    LowLow(v, a, a + b);
    LowLow(w, a, a + b);
    ShrLow(v, a, b);
    ShrLow(w, a, b);
  }

  lemma {:induction false} RunLocal(v: nat, left: nat, w: nat, left': nat)
    requires ReadRun(v, left).Some? && left' >= left - ReadRun(v, left).value.1
    requires Low(v, left - ReadRun(v, left).value.1) == Low(w, left - ReadRun(v, left).value.1)
    ensures ReadRun(w, left') == Some((ReadRun(v, left).value.0, left' - (left - ReadRun(v, left).value.1)))
    decreases left
  {
    hide Low, Shr;
    LowPast(v, w, 2, left - ReadRun(v, left).value.1 - 2);
    if Low(v, 2) == 3 {
      RunLocal(Shr(v, 2), left - 2, Shr(w, 2), left' - 2);
    }
  }

  lemma {:induction false} ProbsLocal(v: nat, left: nat, w: nat, left': nat, r: nat, probs: seq<int>, n: nat)
    requires |probs| <= n
    requires ParseProbs(v, left, r, probs, n).Ok?
    requires var used := left - ParseProbs(v, left, r, probs, n).value.1; left' >= used && Low(v, used) == Low(w, used)
    ensures var res := ParseProbs(v, left, r, probs, n);
      ParseProbs(w, left', r, probs, n) == Ok((res.value.0, left' - (left - res.value.1)))
    decreases n - |probs|
  {
    hide Low, Shr, Pow2, CountAt, ReadRun, ParseProbs;
    var end := ParseProbs(v, left, r, probs, n).value.1;
    if r <= 1 || |probs| == n {
      ParseEnds(v, left, r, probs, n);
      ParseEnds(w, left', r, probs, n);
    } else {
      var c := CountAt(v, r);
      ParseHas(v, left, r, probs, n);
      ParseStep(v, left, r, probs, n, c);
      LowPast(v, w, c.used, left - end - c.used);
      CountLocal(v, w, r);
      ParseStep(w, left', r, probs, n, c);
      var v', w' := Shr(v, c.used), Shr(w, c.used);
      if c.count != 1 {
        ProbsLocal(v', left - c.used, w', left' - c.used, r - Abs(c.count - 1), probs + [c.count - 1], n);
      } else {
        var mid := ReadRun(v', left - c.used).value.1;
        var run := left - c.used - mid;
        LowPast(v', w', run, mid - end);
        RunLocal(v', left - c.used, w', left' - c.used);
        var all := probs + Zeros(ReadRun(v', left - c.used).value.0 + 1);
        ProbsLocal(Shr(v', run), mid, Shr(w', run), left' - c.used - run, r, all[..Min(|all|, n)], n);
      }
    }
  }

  /** An accepted description is read from the bits it is said to take: with any
      other bits after them it is the same description. */
  lemma DescriptionLocal(v: nat, left: nat, w: nat, left': nat, maxSymbol: nat)
    requires Parse(v, left, maxSymbol).Ok?
    requires var used := left - Parse(v, left, maxSymbol).value.left; left' >= used && Low(v, used) == Low(w, used)
    ensures var d := Parse(v, left, maxSymbol).value;
      Parse(w, left', maxSymbol) == Ok(d.(left := left' - (left - d.left)))
  {
    hide Low, Shr, Pow2, ParseProbs, Pad;
    var end := Parse(v, left, maxSymbol).value.left;
    LowPast(v, w, 4, left - end - 4);
    ProbsLocal(Shr(v, 4), left - 4, Shr(w, 4), left' - 4, Pow2(Low(v, 4) + 5) + 1, [], maxSymbol + 1);
  }
}
