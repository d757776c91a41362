/** Literal-length, match-length and offset codes (section 3.1.1.3.2.1.1 of RFC
    8878): the encoder's split of a value into code and extra bits, against the
    decoder's baselines. */
module SeqCodes {
  import opened Arith

  const LL_MAX: nat := 35
  const ML_MAX: nat := 52
  const OF_MAX: nat := 31

  // ----- the decoder's tables -----

  /** A value as `2^bits` values from `base` on: what a code decodes with. */
  datatype Extra = Extra(bits: nat, base: nat)

  // The tables from the first code with extra bits on. The codes before it
  // stand for one value each.

  const LL_LONG_BITS: seq<nat> := [
    1, 1, 1, 1, 2, 2, 3, 3, 4, 6, 7, 8, 9, 10, 11, 12, 13, 14, 15, 16]

  const LL_LONG_BASE: seq<nat> := [
    16, 18, 20, 22, 24, 28, 32, 40, 48, 64,
    128, 256, 512, 1024, 2048, 4096, 8192, 16384, 32768, 65536]

  const ML_LONG_BITS: seq<nat> := [
    1, 1, 1, 1, 2, 2, 3, 3, 4, 4, 5, 7, 8, 9, 10, 11, 12, 13, 14, 15, 16]

  const ML_LONG_BASE: seq<nat> := [
    35, 37, 39, 41, 43, 47, 51, 59, 67, 83, 99, 131,
    259, 515, 1027, 2051, 4099, 8195, 16387, 32771, 65539]

  function LlExtra(code: nat): Extra
    requires code <= LL_MAX
  {
    if code < 16 then Extra(0, code) else Extra(LL_LONG_BITS[code - 16], LL_LONG_BASE[code - 16])
  }

  function MlExtra(code: nat): Extra
    requires code <= ML_MAX
  {
    if code < 32 then Extra(0, code + 3) else Extra(ML_LONG_BITS[code - 32], ML_LONG_BASE[code - 32])
  }

  function OfExtra(code: nat): Extra
    requires code <= OF_MAX
  {
    Extra(code, Pow2(code))
  }

  // ----- the encoder's splits -----

  /** A value's code, the number of its extra bits, and their value. */
  datatype Split = Split(code: nat, bits: nat, extra: nat)

  /** The code table of literal lengths below 64, as its runs. */
  function LlCode(ll: nat): nat {
    if ll < 16 then ll
    else if ll < 18 then 16
    else if ll < 20 then 17
    else if ll < 22 then 18
    else if ll < 24 then 19
    else if ll < 28 then 20
    else if ll < 32 then 21
    else if ll < 40 then 22
    else if ll < 48 then 23
    else 24
  }

  /** The code table of match lengths less 3 below 128, as its runs. */
  function MlCode(mlBase: nat): nat {
    if mlBase < 32 then mlBase
    else if mlBase < 34 then 32
    else if mlBase < 36 then 33
    else if mlBase < 38 then 34
    else if mlBase < 40 then 35
    else if mlBase < 44 then 36
    else if mlBase < 48 then 37
    else if mlBase < 56 then 38
    else if mlBase < 64 then 39
    else if mlBase < 80 then 40
    else if mlBase < 96 then 41
    else 42
  }

  function TrailingZeros(x: nat): nat
    requires x > 0
  {
    if x % 2 == 1 then 0 else 1 + TrailingZeros(x / 2)
  }

  /** The first index of the run of equal codes that `i` lies in. */
  function RunFirst(codes: nat -> nat, i: nat): (f: nat)
    ensures f <= i
  {
    if i > 0 && codes(i - 1) == codes(i) then RunFirst(codes, i - 1) else i
  }

  /** The index after the run, in a table of `n` codes. */
  function RunEnd(codes: nat -> nat, n: nat, i: nat): (e: nat)
    requires i < n
    ensures i < e <= n
    decreases n - i
  {
    if i + 1 < n && codes(i + 1) == codes(i) then RunEnd(codes, n, i + 1) else i + 1
  }

  /** What a code table's row holds: each code covers a run whose length is a
      power of two, so the run gives the baseline and the extra bits. */
  function RowSplit(codes: nat -> nat, n: nat, i: nat): Split
    requires i < n
  {
    var first := RunFirst(codes, i);
    Split(codes(i), TrailingZeros(RunEnd(codes, n, i) - first), i - first)
  }

  function LlSplit(ll: nat): Split {
    if ll < 64 then RowSplit(LlCode, 64, ll)
    else Split(HighBit(ll) + 19, HighBit(ll), ll - Pow2(HighBit(ll)))
  }

  function MlSplit(ml: nat): Split
    requires ml >= 3
  {
    if ml - 3 < 128 then RowSplit(MlCode, 128, ml - 3)
    else Split(HighBit(ml - 3) + 36, HighBit(ml - 3), ml - 3 - Pow2(HighBit(ml - 3)))
  }

  function OfSplit(offsetValue: nat): Split
    requires offsetValue > 0
  {
    Split(HighBit(offsetValue), HighBit(offsetValue), offsetValue - Pow2(HighBit(offsetValue)))
  }

  // ----- a split decodes to its value -----

  /** What the decoder makes of a split. */
  ghost predicate Decodes(s: Split, e: Extra, value: nat) {
    s.bits == e.bits && s.extra < Pow2(e.bits) && e.base + s.extra == value
  }

  lemma {:induction false} RunIs(codes: nat -> nat, n: nat, i: nat, first: nat, end: nat)
    requires first <= i < end <= n
    requires forall j: nat :: first <= j < end ==> codes(j) == codes(i)
    requires first > 0 ==> codes(first - 1) != codes(i)
    requires end < n ==> codes(end) != codes(i)
    ensures RunFirst(codes, i) == first && RunEnd(codes, n, i) == end
  {
    RunFirstIs(codes, i, first);
    RunEndIs(codes, n, i, end);
  }

  lemma {:induction false} RunFirstIs(codes: nat -> nat, i: nat, first: nat)
    requires first <= i && (forall j: nat :: first <= j <= i ==> codes(j) == codes(i))
    requires first > 0 ==> codes(first - 1) != codes(i)
    ensures RunFirst(codes, i) == first
  {
    if first < i { RunFirstIs(codes, i - 1, first); }
  }

  lemma {:induction false} RunEndIs(codes: nat -> nat, n: nat, i: nat, end: nat)
    requires i < end <= n && (forall j: nat :: i <= j < end ==> codes(j) == codes(i))
    requires end < n ==> codes(end) != codes(i)
    ensures RunEnd(codes, n, i) == end
    decreases n - i
  {
    if i + 1 < end { RunEndIs(codes, n, i + 1, end); }
  }

  lemma {:induction false} TrailingZerosPow2(n: nat)
    ensures TrailingZeros(Pow2(n)) == n
  {
    if n > 0 { TrailingZerosPow2(n - 1); }
  }

  lemma RowDecodes(codes: nat -> nat, n: nat, i: nat, first: nat, bits: nat)
    requires first <= i < first + Pow2(bits) <= n
    requires forall j: nat :: first <= j < first + Pow2(bits) ==> codes(j) == codes(i)
    requires first > 0 ==> codes(first - 1) != codes(i)
    requires first + Pow2(bits) < n ==> codes(first + Pow2(bits)) != codes(i)
    ensures RowSplit(codes, n, i) == Split(codes(i), bits, i - first)
  {
    RunIs(codes, n, i, first, first + Pow2(bits));
    TrailingZerosPow2(bits);
  }

  ghost predicate LlShortDecodes(ll: nat) {
    LlCode(ll) <= LL_MAX && LlSplit(ll).code == LlCode(ll) && Decodes(LlSplit(ll), LlExtra(LlCode(ll)), ll)
  }

  lemma LlRun(ll: nat, code: nat, first: nat, bits: nat)
    requires code <= LL_MAX && LlExtra(code) == Extra(bits, first)
    requires first <= ll < first + Pow2(bits) <= 64
    requires forall j: nat :: first <= j < first + Pow2(bits) ==> LlCode(j) == code
    requires first > 0 ==> LlCode(first - 1) != code
    requires first + Pow2(bits) < 64 ==> LlCode(first + Pow2(bits)) != code
    ensures LlShortDecodes(ll)
  {
    RowDecodes(LlCode, 64, ll, first, bits);
  }

  lemma LlShort(ll: nat)
    requires ll < 64
    ensures LlShortDecodes(ll)
  {
    Pow2Values();
    if ll < 16 {
      LlRun(ll, ll, ll, 0);
    } else if ll < 18 {
      LlRun(ll, 16, 16, 1);
    } else if ll < 20 {
      LlRun(ll, 17, 18, 1);
    } else if ll < 22 {
      LlRun(ll, 18, 20, 1);
    } else if ll < 24 {
      LlRun(ll, 19, 22, 1);
    } else if ll < 28 {
      LlRun(ll, 20, 24, 2);
    } else if ll < 32 {
      LlRun(ll, 21, 28, 2);
    } else if ll < 40 {
      LlRun(ll, 22, 32, 3);
    } else if ll < 48 {
      LlRun(ll, 23, 40, 3);
    } else {
      LlRun(ll, 24, 48, 4);
    }
  }

  ghost predicate MlShortDecodes(mlBase: nat) {
    && MlCode(mlBase) <= ML_MAX && MlSplit(mlBase + 3).code == MlCode(mlBase)
    && Decodes(MlSplit(mlBase + 3), MlExtra(MlCode(mlBase)), mlBase + 3)
  }

  lemma MlRun(mlBase: nat, code: nat, first: nat, bits: nat)
    requires code <= ML_MAX && MlExtra(code) == Extra(bits, first + 3)
    requires first <= mlBase < first + Pow2(bits) <= 128
    requires forall j: nat :: first <= j < first + Pow2(bits) ==> MlCode(j) == code
    requires first > 0 ==> MlCode(first - 1) != code
    requires first + Pow2(bits) < 128 ==> MlCode(first + Pow2(bits)) != code
    ensures MlShortDecodes(mlBase)
  {
    RowDecodes(MlCode, 128, mlBase, first, bits);
  }

  lemma MlShortLow(mlBase: nat)
    requires mlBase < 48
    ensures MlShortDecodes(mlBase)
  {
    Pow2Values();
    if mlBase < 32 {
      MlRun(mlBase, mlBase, mlBase, 0);
    } else if mlBase < 34 {
      MlRun(mlBase, 32, 32, 1);
    } else if mlBase < 36 {
      MlRun(mlBase, 33, 34, 1);
    } else if mlBase < 38 {
      MlRun(mlBase, 34, 36, 1);
    } else if mlBase < 40 {
      MlRun(mlBase, 35, 38, 1);
    } else if mlBase < 44 {
      MlRun(mlBase, 36, 40, 2);
    } else {
      MlRun(mlBase, 37, 44, 2);
    }
  }

  lemma MlShortHigh(mlBase: nat)
    requires 48 <= mlBase < 128
    ensures MlShortDecodes(mlBase)
  {
    Pow2Values();
    if mlBase < 56 {
      MlRun(mlBase, 38, 48, 3);
    } else if mlBase < 64 {
      MlRun(mlBase, 39, 56, 3);
    } else if mlBase < 80 {
      MlRun(mlBase, 40, 64, 4);
    } else if mlBase < 96 {
      MlRun(mlBase, 41, 80, 4);
    } else {
      MlRun(mlBase, 42, 96, 5);
    }
  }

  /** The codes of long values name their top bit. */
  lemma LongCodes(h: nat)
    requires 6 <= h <= 16
    ensures LlExtra(h + 19) == Extra(h, Pow2(h))
    ensures h >= 7 ==> MlExtra(h + 36) == Extra(h, Pow2(h) + 3)
  {
    Pow2Values();
    if h > 11 {
      assert Pow2(12) == 4096 && Pow2(13) == 8192 && Pow2(14) == 16384 && Pow2(15) == 32768 && Pow2(16) == 65536;
    }
  }

  /** Every literal length below 2^17 has one of the 36 codes, and its split
      decodes to it. */
  lemma LlSplitDecodes(ll: nat)
    requires ll < 131072
    ensures LlSplit(ll).code <= LL_MAX
    ensures Decodes(LlSplit(ll), LlExtra(LlSplit(ll).code), ll)
  {
    if ll < 64 {
      LlShort(ll);
    } else {
      HighBitRange(ll, 6, 16);
      LongCodes(HighBit(ll));
    }
  }

  /** So has every match length from 3 below 2^17 + 3. */
  lemma MlSplitDecodes(ml: nat)
    requires 3 <= ml < 131075
    ensures MlSplit(ml).code <= ML_MAX
    ensures Decodes(MlSplit(ml), MlExtra(MlSplit(ml).code), ml)
  {
    if ml - 3 < 128 {
      if ml - 3 < 48 { MlShortLow(ml - 3); } else { MlShortHigh(ml - 3); }
    } else {
      HighBitRange(ml - 3, 7, 16);
      LongCodes(HighBit(ml - 3));
    }
  }

  lemma OfSplitDecodes(offsetValue: nat, top: nat)
    requires 0 < offsetValue < Pow2(top + 1) && top <= OF_MAX
    ensures OfSplit(offsetValue).code <= top
    ensures Decodes(OfSplit(offsetValue), OfExtra(OfSplit(offsetValue).code), offsetValue)
  {
    if HighBit(offsetValue) > top { Pow2Mono(top + 1, HighBit(offsetValue)); }
  }

  lemma HighBitRange(x: nat, lo: nat, hi: nat)
    requires Pow2(lo) <= x < Pow2(hi + 1)
    ensures lo <= HighBit(x) <= hi
  {
    if HighBit(x) < lo { Pow2Mono(HighBit(x) + 1, lo); }
    if HighBit(x) > hi { Pow2Mono(hi + 1, HighBit(x)); }
  }
}
