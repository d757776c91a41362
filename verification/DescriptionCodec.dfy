/** Serializing and parsing FSE table descriptions as the codec does it, with a
    running threshold and 64-bit windows, against the bit-by-bit form. */
module DescriptionCodec {
  import opened Arith
  import opened Bits
  import opened Wrappers
  import opened FseSpread
  import opened FseTable
  import opened FseDescription
  import opened ForwardBits

  // ----- serializing -----

  /** The bits of fields as a stack. */
  ghost function StackOf(fs: seq<BitField>): (b: BitStack)
    requires Fit(fs)
    ensures b.Valid()
  {
    ValueBound(fs);
    BitStack(Value(fs), BitLen(fs))
  }

  lemma {:induction false} ValueBound(fs: seq<BitField>)
    requires Fit(fs)
    ensures Value(fs) < Pow2(BitLen(fs))
  {
    if |fs| > 0 {
      ValueBound(fs[1..]);
      ShlBelow(Value(fs[1..]), BitLen(fs[1..]), fs[0].n);
    }
  }

  lemma PushField(fs: seq<BitField>, f: BitField)
    requires Fit(fs) && f.val < Pow2(f.n)
    ensures Fit(fs + [f]) && Push(StackOf(fs), f.val, f.n) == StackOf(fs + [f])
  {
    hide Shl, Pow2;
    BitsConcat(fs, [f]);
    FieldInFront(f, [], 0);
    assert [f] + [] == [f];
    OneField(f);
  }

  lemma OneField(f: BitField)
    ensures Value([f]) == f.val && BitLen([f]) == f.n
  {
    ShlOne(f.n);
  }

  /** The largest power of two up to `r`, and its bits. */
  ghost predicate ThresholdOf(r: nat, threshold: nat, nbBits: nat) {
    r >= 1 && nbBits == HighBit(r) + 1 && threshold == Pow2(HighBit(r))
  }

  lemma ThresholdRange(r: nat, threshold: nat, nbBits: nat)
    requires ThresholdOf(r, threshold, nbBits)
    ensures threshold <= r < 2 * threshold && nbBits >= 1 && threshold == Pow2(nbBits - 1)
  {
    Pow2Step(HighBit(r));
  }

  /** Halving down to the threshold. */
  method LowerThreshold(r: nat, threshold0: nat, nbBits0: nat) returns (threshold: nat, nbBits: nat)
    requires r >= 1 && nbBits0 >= 1 && threshold0 == Pow2(nbBits0 - 1) && r < 2 * threshold0
    ensures ThresholdOf(r, threshold, nbBits) && nbBits <= nbBits0
  {
    hide HighBit;
    threshold, nbBits := threshold0, nbBits0;
    while r < threshold
      invariant 1 <= nbBits <= nbBits0 && threshold == Pow2(nbBits - 1) && r < 2 * threshold
      decreases nbBits
    {
      nbBits := nbBits - 1;
      threshold := threshold / 2;
    }
    Pow2Step(nbBits - 1);
    HighBitUnique(r, nbBits - 1);
  }

  method WriteField(writer: BitWriter, f: BitField, ghost done: seq<BitField>)
    requires writer.Valid() && f.n <= MAX_WRITE && f.val < Pow2(f.n)
    requires Fit(done) && writer.Written() == StackOf(done)
    modifies writer
    ensures writer.Valid() && Fit(done + [f]) && writer.Written() == StackOf(done + [f])
  {
    PushField(done, f);
    writer.WriteBits(f.val, f.n);
  }

  /** The code of a count below `r + 1`. */
  method WriteCount(writer: BitWriter, count: nat, r: nat, threshold: nat, nbBits: nat, ghost done: seq<BitField>)
    requires writer.Valid() && r > 1 && count <= r && ThresholdOf(r, threshold, nbBits) && nbBits <= 13
    requires Fit(done) && writer.Written() == StackOf(done)
    modifies writer
    ensures writer.Valid() && Fit(done + [CountField(count, r)])
    ensures writer.Written() == StackOf(done + [CountField(count, r)])
  {
    hide Pow2, Shl, StackOf;
    CountRoundTrip(count, r, 0);
    ThresholdRange(r, threshold, nbBits);
    var maxVal := 2 * threshold - 1 - r;
    if count < maxVal {
      WriteField(writer, BitField(count, nbBits - 1), done);
    } else if count < threshold {
      WriteField(writer, BitField(count, nbBits), done);
    } else {
      WriteField(writer, BitField(count + maxVal, nbBits), done);
    }
  }

  method WriteRun(writer: BitWriter, zeros: nat, ghost done: seq<BitField>)
    requires writer.Valid() && Fit(done) && writer.Written() == StackOf(done)
    modifies writer
    ensures writer.Valid() && Fit(done + RunFields(zeros))
    ensures writer.Written() == StackOf(done + RunFields(zeros))
  {
    hide StackOf;
    Pow2Values();
    var z := zeros;
    ghost var written := done;
    while z >= 3
      invariant writer.Valid() && Fit(written) && writer.Written() == StackOf(written)
      invariant written + RunFields(z) == done + RunFields(zeros)
    {
      assert written + [BitField(3, 2)] + RunFields(z - 3) == written + RunFields(z);
      WriteField(writer, BitField(3, 2), written);
      written := written + [BitField(3, 2)];
      z := z - 3;
    }
    WriteField(writer, BitField(z, 2), written);
  }

  /** How many zeros follow. */
  method CountZeros(dist: seq<int>, start: nat) returns (zeros: nat)
    requires start <= |dist|
    ensures zeros == ZeroRun(dist, start)
  {
    zeros := 0;
    while start + zeros < |dist| && dist[start + zeros] == 0
      invariant start + zeros <= |dist|
      invariant zeros + ZeroRun(dist, start + zeros) == ZeroRun(dist, start)
    {
      zeros := zeros + 1;
    }
  }

  lemma ProbFieldsStep(dist: seq<int>, i: nat, r: nat, done: seq<BitField>)
    requires i < |dist| && r > 1 && forall j :: 0 <= j < |dist| ==> dist[j] >= -1
    ensures dist[i] == 0 ==>
      var zeros := ZeroRun(dist, i + 1);
      done + ProbFields(dist, i, r)
        == done + [CountField(1, r)] + RunFields(zeros) + ProbFields(dist, i + 1 + zeros, r)
    ensures dist[i] != 0 && Abs(dist[i]) <= r ==>
      done + ProbFields(dist, i, r)
        == done + [CountField(dist[i] + 1, r)] + ProbFields(dist, i + 1, r - Abs(dist[i]))
  {
    hide CountField, RunFields;
  }

  /** One probability, with the run of zeros after a zero. */
  method WriteProb(writer: BitWriter, dist: seq<int>, log: nat, i: nat, remaining: nat, threshold: nat, nbBits: nat,
                   ghost done: seq<BitField>)
    returns (i': nat, remaining': nat, ghost done': seq<BitField>)
    requires Fills(dist, log) && i < |dist| && remaining == Pow2(log) + 1 - TotalCells(dist, i) && remaining > 1
    requires ThresholdOf(remaining, threshold, nbBits) && nbBits <= 13
    requires writer.Valid() && Fit(done) && writer.Written() == StackOf(done)
    modifies writer
    ensures writer.Valid() && Fit(done') && writer.Written() == StackOf(done')
    ensures i < i' <= |dist| && 1 <= remaining' <= remaining && remaining' == Pow2(log) + 1 - TotalCells(dist, i')
    ensures done' + ProbFields(dist, i', remaining') == done + ProbFields(dist, i, remaining)
  {
    hide StackOf, Value, BitLen, CountField, RunFields, HighBit, TotalCells, Pow2, ThresholdOf, ProbFields, ZeroRun;
    var prob := dist[i];
    ProbCost(dist, i, log);
    ProbFieldsStep(dist, i, remaining, done);
    WriteCount(writer, prob + 1, remaining, threshold, nbBits, done);
    ghost var field := CountField(prob + 1, remaining);
    if prob == 0 {
      var zeros := CountZeros(dist, i + 1);
      WriteRun(writer, zeros, done + [field]);
      TotalOfZeros(dist, i, i + 1 + zeros);
      i', remaining', done' := i + 1 + zeros, remaining, done + [field] + RunFields(zeros);
    } else {
      i', remaining', done' := i + 1, remaining - Abs(prob), done + [field];
    }
  }

  /** A description's bytes: its fields, filled up with zeros. */
  method Serialize(dist: seq<int>, log: nat) returns (bytes: seq<byte>)
    requires 5 <= log <= MAX_TABLE_LOG && Fills(dist, log)
    ensures var fs := DescriptionFields(dist, log);
      LE(bytes) == Value(fs) && |bytes| == (BitLen(fs) + 7) / 8
  {
    hide StackOf, Value, BitLen, CountField, HighBit, TotalCells, Pow2, ThresholdOf;
    ghost var fs := DescriptionFields(dist, log);
    var writer := new BitWriter();
    Opening(dist, log);
    WriteField(writer, BitField(log - 5, 4), []);
    ghost var done := [BitField(log - 5, 4)];
    var remaining: nat, threshold: nat, nbBits: nat := Pow2(log) + 1, Pow2(log), log + 1;
    var i: nat := 0;
    while i < |dist| && remaining > 1
      invariant i <= |dist| && writer.Valid() && Fit(done) && writer.Written() == StackOf(done)
      invariant 1 <= remaining == Pow2(log) + 1 - TotalCells(dist, i)
      invariant ThresholdOf(remaining, threshold, nbBits) && nbBits <= log + 1
      invariant done + ProbFields(dist, i, remaining) == fs
    {
      ThresholdRange(remaining, threshold, nbBits);
      i, remaining, done := WriteProb(writer, dist, log, i, remaining, threshold, nbBits, done);
      threshold, nbBits := LowerThreshold(remaining, threshold, nbBits);
    }
    assert done == fs;
    StackOfIs(fs);
    bytes := writer.IntoBytes();
  }

  lemma StackOfIs(fs: seq<BitField>)
    requires Fit(fs)
    ensures StackOf(fs).v == Value(fs) && StackOf(fs).len == BitLen(fs)
  {
  }

  lemma Opening(dist: seq<int>, log: nat)
    requires 5 <= log <= MAX_TABLE_LOG
    ensures log - 5 < Pow2(4) && Fit([]) && StackOf([]) == EMPTY
    ensures [] + [BitField(log - 5, 4)] == [BitField(log - 5, 4)]
    ensures ThresholdOf(Pow2(log) + 1, Pow2(log), log + 1) && TotalCells(dist, 0) == 0
  {
    Pow2Values();
    Pow2Mono(5, log);
    Pow2Step(log);
    HighBitUnique(Pow2(log) + 1, log);
  }

  // ----- parsing -----

  /** `x.trailing_ones()` */
  function TrailingOnes(x: nat): nat {
    if x % 2 == 0 then 0 else 1 + TrailingOnes(x / 2)
  }

  /** A low `3` code per two trailing ones. */
  lemma {:induction false} SkipThrees(v: nat, left: nat, t: nat)
    requires 2 * t <= TrailingOnes(v)
    ensures ReadRun(v, left) ==
      if left < 2 * t then None
      else match ReadRun(Shr(v, 2 * t), left - 2 * t)
        case None => None
        case Some((zeros, rest)) => Some((zeros + 3 * t, rest))
    decreases t
  {
    hide TrailingOnes, Low, Shr;
    if t == 0 {
      ShrZero(v);
    } else {
      OnesPair(v);
      ShrShr(v, 2, 2 * t - 2);
      if left >= 2 {
        SkipThrees(Shr(v, 2), left - 2, t - 1);
      }
    }
  }

  lemma OnesPair(v: nat)
    requires TrailingOnes(v) >= 2
    ensures Low(v, 2) == 3 && TrailingOnes(Shr(v, 2)) == TrailingOnes(v) - 2
  {
    assert v % 2 == 1 && (v / 2) % 2 == 1;
    assert Shr(v, 2) == Shr(v / 2, 1);
    assert Shr(v / 2, 1) == Shr(v / 2 / 2, 0);
    assert Low(v, 2) == v % 2 + 2 * Low(v / 2, 1);
    assert Low(v / 2, 1) == (v / 2) % 2;
  }

  /** After them comes another code. */
  lemma {:induction false} AfterThrees(v: nat, t: nat)
    requires t == TrailingOnes(v) / 2
    ensures Low(Shr(v, 2 * t), 2) < 3
    decreases t
  {
    if t == 0 {
      ShrZero(v);
      assert Low(v, 2) == v % 2 + 2 * Low(v / 2, 1);
      assert Low(v / 2, 1) == (v / 2) % 2;
    } else {
      OnesPair(v);
      ShrShr(v, 2, 2 * t - 2);
      AfterThrees(Shr(v, 2), t - 1);
    }
  }

  /** The codes depend on the bits up to the last one. */
  lemma {:induction false} OnesLocal(v: nat, w: nat, n: nat)
    requires Low(v, n) == Low(w, n)
    ensures TrailingOnes(w) >= Min(TrailingOnes(v), n)
    decreases n
  {
    if n > 0 && v % 2 == 1 {
      OnesLocal(v / 2, w / 2, n - 1);
    }
  }

  /** Bits of a window that the run's codes may use. */
  const RUN_BITS: nat := 44

  /** One window's worth of codes: up to fifteen threes and the last code, or
      sixteen threes and no end yet. */
  lemma RunWindow(run: nat, v: nat, left: nat)
    requires Low(run, RUN_BITS) == Low(v, RUN_BITS)
    ensures var t := TrailingOnes(run) / 2;
      if t < 16 then
        ReadRun(v, left) == if left < 2 * t + 2 then None
          else Some((3 * t + Low(Shr(run, 2 * t), 2), left - 2 * t - 2))
      else
        ReadRun(v, left) == if left < 32 then None
          else match ReadRun(Shr(v, 32), left - 32)
            case None => None
            case Some((zeros, rest)) => Some((zeros + 48, rest))
  {
    hide Low, Shr, TrailingOnes;
    var t := TrailingOnes(run) / 2;
    OnesLocal(run, v, RUN_BITS);
    if t < 16 {
      SkipThrees(v, left, t);
      AfterThrees(run, t);
      SameCode(run, v, t);
    } else {
      SkipThrees(v, left, 16);
    }
  }

  lemma SameCode(run: nat, v: nat, t: nat)
    requires t < 16 && Low(run, RUN_BITS) == Low(v, RUN_BITS)
    ensures Low(Shr(run, 2 * t), 2) == Low(Shr(v, 2 * t), 2)
  {
    hide Low, Shr;
    LowLow(run, 2 * t + 2, RUN_BITS);
    LowLow(v, 2 * t + 2, RUN_BITS);
    LowPast(run, v, 2 * t, 2);
  }

  /** The bits after a field are the window's, as far as it reaches. */
  lemma WindowRest(data: seq<byte>, bit: nat, used: nat)
    requires used <= 13
    ensures Low(Shr(WindowAt(data, bit), used), RUN_BITS) == Low(Shr(LE(data), bit + used), RUN_BITS)
  {
    hide Low, Shr, LE, Pow2, WindowAt;
    WindowReads(data, bit, WINDOW_BITS);
    LowLow(WindowAt(data, bit), used + RUN_BITS, WINDOW_BITS);
    LowLow(Shr(LE(data), bit), used + RUN_BITS, WINDOW_BITS);
    LowPast(WindowAt(data, bit), Shr(LE(data), bit), used, RUN_BITS);
    ShrShr(LE(data), bit, used);
  }

  /** A run of zeros, many codes at a time; `n` counts the probabilities, capped
      at `maxLen`. */
  method ReadZeros(data: seq<byte>, start: nat, first: nat, n0: nat, maxLen: nat) returns (ok: bool, n: nat, bit: nat)
    requires start <= 8 * |data| && n0 <= maxLen
    requires Low(first, RUN_BITS) == Low(Shr(LE(data), start), RUN_BITS)
    ensures match ReadRun(Shr(LE(data), start), 8 * |data| - start)
      case None => !ok
      case Some((zeros, rest)) => ok && bit == 8 * |data| - rest && n == Min(n0 + zeros, maxLen)
  {
    hide Low, Shr, LE, ReadRun, TrailingOnes, WindowAt;
    var end := 8 * |data|;
    var run := first;
    ghost var skipped: nat := 0;
    n, bit := n0, start;
    while true
      invariant start <= bit <= end && n == Min(n0 + skipped, maxLen)
      invariant Low(run, RUN_BITS) == Low(Shr(LE(data), bit), RUN_BITS)
      invariant ReadRun(Shr(LE(data), start), end - start) ==
        match ReadRun(Shr(LE(data), bit), end - bit)
        case None => None
        case Some((zeros, rest)) => Some((zeros + skipped, rest))
      decreases end - bit
    {
      RunWindow(run, Shr(LE(data), bit), end - bit);
      var threes := TrailingOnes(run) / 2;
      if threes < 16 {
        var last := Low(Shr(run, 2 * threes), 2);
        bit := bit + 2 * threes + 2;
        if bit > end {
          return false, n, bit;
        }
        n := Min(n + 3 * threes + last, maxLen);
        return true, n, bit;
      }
      ShrShr(LE(data), bit, 32);
      bit := bit + 32;
      if bit > end {
        return false, n, bit;
      }
      n, skipped := Min(n + 48, maxLen), skipped + 48;
      run := WindowAt(data, bit);
      WindowReads(data, bit, RUN_BITS);
    }
  }

  /** A count from a window, chosen between its two candidates. */
  method ReadCount(window: nat, remaining: nat, threshold: nat, nbBits: nat, ghost v: nat) returns (count: nat, used: nat)
    requires remaining > 1 && ThresholdOf(remaining, threshold, nbBits) && nbBits <= 13
    requires Low(window, nbBits) == Low(v, nbBits)
    ensures CountAt(v, remaining) == Count(count, used) && used <= nbBits
  {
    hide Low, HighBit, Pow2, BitAnd;
    ThresholdRange(remaining, threshold, nbBits);
    Pow2Step(nbBits - 1);
    AndMask(window, nbBits - 1);
    AndMask(window, nbBits);
    LowLow(window, nbBits - 1, nbBits);
    LowLow(v, nbBits - 1, nbBits);
    var maxVal := 2 * threshold - 1 - remaining;
    var lower := BitAnd(window, threshold - 1);
    var full := BitAnd(window, 2 * threshold - 1);
    var long := lower >= maxVal;
    count := if !long then lower else if full >= threshold then full - maxVal else full;
    used := nbBits - 1 + (if long then 1 else 0);
  }

  /** The state of the parser's loop: its result is still the whole's. */
  ghost predicate Parsing(whole: Result<(seq<int>, nat), DecodeError>, data: seq<byte>, bit: nat, remaining: nat,
                          probs: seq<int>, maxLen: nat)
  {
    && bit <= 8 * |data| && |probs| <= maxLen
    && whole == ParseProbs(Shr(LE(data), bit), 8 * |data| - bit, remaining, probs, maxLen)
  }

  lemma NextProb(whole: Result<(seq<int>, nat), DecodeError>, data: seq<byte>, bit: nat, remaining: nat,
                 probs: seq<int>, maxLen: nat, count: nat, used: nat)
    requires Parsing(whole, data, bit, remaining, probs, maxLen) && remaining > 1 && |probs| < maxLen
    requires CountAt(Shr(LE(data), bit), remaining) == Count(count, used)
    ensures bit + used > 8 * |data| ==> whole == Err(InputExhausted)
    ensures bit + used <= 8 * |data| && Abs(count - 1) > remaining ==> whole == Err(BadFseTable)
    ensures bit + used <= 8 * |data| && Abs(count - 1) <= remaining && count != 1 ==>
      Parsing(whole, data, bit + used, remaining - Abs(count - 1), probs + [count - 1], maxLen)
    ensures bit + used <= 8 * |data| && count == 1 ==>
      match ReadRun(Shr(LE(data), bit + used), 8 * |data| - bit - used)
      case None => whole == Err(InputExhausted)
      case Some((zeros, rest)) =>
        var all := probs + Zeros(zeros + 1);
        Parsing(whole, data, 8 * |data| - rest, remaining, all[..Min(|all|, maxLen)], maxLen)
  {
    hide Shr, LE, CountAt, ReadRun, ParseProbs;
    ShrShr(LE(data), bit, used);
    var v, left := Shr(LE(data), bit), 8 * |data| - bit;
    if used > left || Abs(count - 1) > remaining {
      ParseStops(v, left, remaining, probs, maxLen, Count(count, used));
    } else {
      ParseStep(v, left, remaining, probs, maxLen, Count(count, used));
      if count == 1 && ReadRun(Shr(v, used), left - used).Some? {
        ShrShr(LE(data), bit + used, left - used - ReadRun(Shr(v, used), left - used).value.1);
      }
    }
  }

  lemma ParseStops(v: nat, left: nat, r: nat, probs: seq<int>, n: nat, c: Count)
    requires r > 1 && |probs| < n && CountAt(v, r) == c && (c.used > left || Abs(c.count - 1) > r)
    ensures ParseProbs(v, left, r, probs, n) == if c.used > left then Err(InputExhausted) else Err(BadFseTable)
  {
    hide Shr, CountAt, ReadRun;
  }

  /** What the reader makes of parsed probabilities: zeros after them, and the bit it
      stands at. */
  function FromParsed(parsed: Result<(seq<int>, nat), DecodeError>, end: nat, maxLen: nat): Result<(seq<int>, nat), DecodeError>
    requires parsed.Ok? ==> |parsed.value.0| <= maxLen && parsed.value.1 <= end
  {
    if parsed.Err? then Err(parsed.error) else Ok((Pad(parsed.value.0, maxLen), end - parsed.value.1))
  }

  /** The probabilities of a description, written to a zeroed buffer of 256. */
  method ReadProbs(data: seq<byte>, start: nat, log: nat, maxLen: nat) returns (r: Result<(seq<int>, nat), DecodeError>)
    requires 5 <= log <= MAX_TABLE_LOG && start <= 8 * |data| && 0 < maxLen <= 256
    ensures r == FromParsed(ParseProbs(Shr(LE(data), start), 8 * |data| - start, Pow2(log) + 1, [], maxLen), 8 * |data|, maxLen)
  {
    hide Shr, LE, CountAt, ReadRun, ParseProbs, WindowAt, HighBit, Pow2, Low, ThresholdOf;
    var end := 8 * |data|;
    ghost var whole := ParseProbs(Shr(LE(data), start), 8 * |data| - start, Pow2(log) + 1, [], maxLen);
    var bit: nat := start;
    var remaining: nat, threshold: nat, nbBits: nat := Pow2(log) + 1, Pow2(log), log + 1;
    var out := Zeros(256);
    var n: nat := 0;
    Opening([], log);
    while remaining > 1 && n < maxLen
      invariant n <= maxLen && |out| == 256 && (forall j :: n <= j < 256 ==> out[j] == 0)
      invariant Parsing(whole, data, bit, remaining, out[..n], maxLen)
      invariant remaining > 1 ==> ThresholdOf(remaining, threshold, nbBits) && nbBits <= 13
      decreases maxLen - n
    {
      var window := WindowAt(data, bit);
      WindowReads(data, bit, nbBits);
      var count, used := ReadCount(window, remaining, threshold, nbBits, Shr(LE(data), bit));
      NextProb(whole, data, bit, remaining, out[..n], maxLen, count, used);
      WindowRest(data, bit, used);
      ghost var before := out[..n];
      bit := bit + used;
      if bit > end {
        return Err(InputExhausted);
      }
      var prob := count as int - 1;
      out := out[n := prob];
      n := n + 1;
      assert out[..n] == before + [prob];
      if Abs(prob) > remaining {
        return Err(BadFseTable);
      }
      ThresholdRange(remaining, threshold, nbBits);
      remaining := remaining - Abs(prob);
      if prob == 0 {
        var ok;
        ghost var after := bit;
        ok, n, bit := ReadZeros(data, bit, Shr(window, used), n, maxLen);
        if !ok {
          return Err(InputExhausted);
        }
        ghost var all := before + Zeros(ReadRun(Shr(LE(data), after), end - after).value.0 + 1);
        assert out[..n] == all[..Min(|all|, maxLen)];
      }
      if remaining < threshold && remaining > 1 {
        threshold, nbBits := NewThreshold(remaining, threshold, nbBits);
      } else if remaining > 1 {
        KeptThreshold(remaining, threshold, nbBits);
      }
    }
    ParseDone(whole, data, bit, remaining, out[..n], maxLen);
    if remaining != 1 {
      return Err(BadFseTable);
    }
    assert out[..maxLen] == Pad(out[..n], maxLen);
    return Ok((out[..maxLen], bit));
  }

  /** The threshold below a smaller remainder, from its top bit. */
  method NewThreshold(r: nat, ghost threshold0: nat, ghost nbBits0: nat) returns (threshold: nat, nbBits: nat)
    requires r >= 1 && nbBits0 >= 1 && threshold0 == Pow2(nbBits0 - 1) && r < 2 * threshold0
    ensures ThresholdOf(r, threshold, nbBits) && nbBits <= nbBits0
  {
    var high := HighBit(r);
    nbBits := high + 1;
    threshold := Pow2(high);
    if nbBits > nbBits0 {
      Pow2Mono(nbBits0, high);
    }
  }

  lemma KeptThreshold(r: nat, threshold: nat, nbBits: nat)
    requires nbBits >= 1 && threshold == Pow2(nbBits - 1) && threshold <= r < 2 * threshold
    ensures ThresholdOf(r, threshold, nbBits)
  {
    Pow2Step(nbBits - 1);
    HighBitUnique(r, nbBits - 1);
  }

  lemma ParseDone(whole: Result<(seq<int>, nat), DecodeError>, data: seq<byte>, bit: nat, remaining: nat,
                  probs: seq<int>, maxLen: nat)
    requires Parsing(whole, data, bit, remaining, probs, maxLen) && (remaining <= 1 || |probs| == maxLen)
    ensures whole == if remaining == 1 then Ok((probs, 8 * |data| - bit)) else Err(BadFseTable)
  {
  }

  /** Parses a description from the reader on, and leaves the reader on the byte
      after it. On errors the reader stays where it was. */
  method ParseInto(reader: BitReader, maxSymbol: nat) returns (r: Result<(seq<int>, nat), DecodeError>)
    requires reader.Valid() && maxSymbol < 256
    modifies reader
    ensures reader.Valid()
    ensures match Parse(Shr(LE(reader.data), old(reader.BitsConsumed())),
                        8 * |reader.data| - old(reader.BitsConsumed()), maxSymbol)
      case Err(e) => r == Err(e) && reader.BitsConsumed() == old(reader.BitsConsumed())
      case Ok(d) => r == Ok((d.dist, d.log)) && reader.BitsConsumed() == 8 * ((8 * |reader.data| - d.left + 7) / 8)
  {
    hide Shr, LE, ParseProbs, WindowAt, Pow2, Low, BitAnd, Pad;
    var data := reader.data;
    var end := 8 * |data|;
    var bit := reader.BitsConsumed();
    if bit + 4 > end {
      return Err(InputExhausted);
    }
    WindowReads(data, bit, 4);
    HeaderMask(WindowAt(data, bit));
    var log := BitAnd(WindowAt(data, bit), 15) + 5;
    ShrShr(LE(data), bit, 4);
    bit := bit + 4;
    if log > MAX_TABLE_LOG {
      return Err(BadFseTable);
    }
    var probs := ReadProbs(data, bit, log, maxSymbol + 1);
    if probs.Err? {
      return Err(probs.error);
    }
    reader.Seek(probs.value.1);
    reader.AlignToByte();
    return Ok((probs.value.0, log));
  }

  lemma HeaderMask(x: nat)
    ensures BitAnd(x, 15) == Low(x, 4)
  {
    Pow2Values();
    AndMask(x, 4);
  }

  // ----- what the two sides make of one another -----

  /** Serialized bytes, with anything after them, parse to their distribution and
      are consumed exactly. */
  lemma DescriptionBytes(bytes: seq<byte>, suffix: seq<byte>, dist: seq<int>, log: nat, maxSymbol: nat)
    requires 5 <= log <= MAX_TABLE_LOG && Fills(dist, log) && |dist| <= maxSymbol + 1
    requires var fs := DescriptionFields(dist, log); LE(bytes) == Value(fs) && |bytes| == (BitLen(fs) + 7) / 8
    ensures var data := bytes + suffix;
      match Parse(LE(data), 8 * |data|, maxSymbol)
      case Err(_) => false
      case Ok(d) => d.dist == Pad(dist, maxSymbol + 1) && d.log == log && (8 * |data| - d.left + 7) / 8 == |bytes|
  {
    hide Parse, Value, BitLen, Shl, Pow2, LE, DescriptionFields, Pad;
    var fs := DescriptionFields(dist, log);
    var fill: nat := 8 * |bytes| - BitLen(fs);
    LEConcat(bytes, suffix);
    ShlShl(LE(suffix), fill, BitLen(fs));
    DescriptionRoundTrip(dist, log, Shl(LE(suffix), fill), fill + 8 * |suffix|, maxSymbol);
  }

  /** An accepted description's probabilities fill its table. */
  lemma {:induction false} ParsedFills(v: nat, left: nat, r: nat, probs: seq<int>, n: nat, log: nat)
    requires |probs| <= n && r == Pow2(log) + 1 - TotalCells(probs, |probs|)
    requires forall i :: 0 <= i < |probs| ==> probs[i] >= -1
    requires ParseProbs(v, left, r, probs, n).Ok?
    ensures Fills(Pad(ParseProbs(v, left, r, probs, n).value.0, n), log)
    decreases n - |probs|
  {
    hide Shr, CountAt, ReadRun, Pow2, Pad;
    if r <= 1 || |probs| == n {
      PadFills(probs, n, log);
    } else {
      var c := CountAt(v, r);
      if c.count != 1 {
        AppendCells(probs, c.count - 1);
        ParsedFills(Shr(v, c.used), left - c.used, r - Abs(c.count - 1), probs + [c.count - 1], n, log);
      } else {
        var run := ReadRun(Shr(v, c.used), left - c.used).value;
        var all := probs + Zeros(run.0 + 1);
        var more := all[..Min(|all|, n)];
        TotalPrefix(probs, more, |probs|);
        TotalOfZeros(more, |probs|, |more|);
        ParsedFills(Shr(Shr(v, c.used), left - c.used - run.1), run.1, r, more, n, log);
      }
    }
  }

  lemma {:induction false} TotalPrefix(a: seq<int>, b: seq<int>, n: nat)
    requires n <= |a| && n <= |b| && a[..n] == b[..n]
    ensures TotalCells(a, n) == TotalCells(b, n)
  {
    if n > 0 {
      assert a[..n - 1] == a[..n][..n - 1] == b[..n - 1];
      assert a[n - 1] == a[..n][n - 1] == b[n - 1];
      TotalPrefix(a, b, n - 1);
    }
  }

  lemma AppendCells(probs: seq<int>, p: int)
    ensures TotalCells(probs + [p], |probs| + 1) == TotalCells(probs, |probs|) + Cells(p)
  {
    TotalPrefix(probs, probs + [p], |probs|);
  }

  lemma PadFills(dist: seq<int>, n: nat, log: nat)
    requires |dist| <= n && (forall i :: 0 <= i < |dist| ==> dist[i] >= -1) && TotalCells(dist, |dist|) == Pow2(log)
    ensures Fills(Pad(dist, n), log)
  {
    TotalPrefix(dist, Pad(dist, n), |dist|);
    TotalOfZeros(Pad(dist, n), |dist|, n);
  }

  lemma DescriptionFills(v: nat, left: nat, maxSymbol: nat)
    requires Parse(v, left, maxSymbol).Ok?
    ensures var d := Parse(v, left, maxSymbol).value; 5 <= d.log <= MAX_TABLE_LOG && Fills(d.dist, d.log)
  {
    hide Shr, Low, Pow2, Pad, ParseProbs;
    ParsedFills(Shr(v, 4), left - 4, Pow2(Low(v, 4) + 5) + 1, [], maxSymbol + 1, Low(v, 4) + 5);
  }

  /** Zeros at the end change neither the spread nor its table. */
  lemma PadSpread(dist: seq<int>, n: nat, log: nat)
    requires log >= 5 && Fills(dist, log) && HasWholeCell(dist, log) && |dist| <= n
    ensures Fills(Pad(dist, n), log) && HasWholeCell(Pad(dist, n), log)
    ensures SpreadOf(Pad(dist, n), log) == SpreadOf(dist, log)
  {
    hide SpreadOf, Pow2;
    var p := Pad(dist, n);
    PadFills(dist, n, log);
    SamePrefix(dist, p, |dist|);
    ZerosNoCells(p, |dist|, n);
    SpreadUnique(SpreadOf(dist, log), SpreadOf(p, log), p, log);
  }

  lemma {:induction false} SamePrefix(a: seq<int>, b: seq<int>, n: nat)
    requires n <= |a| && n <= |b| && a[..n] == b[..n]
    ensures Rares(a, n) == Rares(b, n) && Layout(a, n) == Layout(b, n)
  {
    if n > 0 {
      assert a[..n - 1] == a[..n][..n - 1] == b[..n - 1];
      assert a[n - 1] == a[..n][n - 1] == b[n - 1];
      SamePrefix(a, b, n - 1);
    }
  }

  lemma {:induction false} ZerosNoCells(a: seq<int>, i: nat, n: nat)
    requires i <= n <= |a| && forall j :: i <= j < n ==> a[j] == 0
    ensures Rares(a, n) == Rares(a, i) && Layout(a, n) == Layout(a, i)
  {
    if i < n {
      ZerosNoCells(a, i, n - 1);
    }
  }
}
