/** Packing a parse for the entropy coders: repeat offsets, codes, extra bits and
    literals, and the proof that executing what was packed replays the parse. */
module SeqPack {
  import opened Arith
  import opened Bits
  import opened Wrappers
  import opened SeqCodes
  import opened SeqStream
  import opened RepOffsets
  import opened Replay
  import opened SequenceRun
  import opened Sequences

  // ----- one sequence -----

  /** Lengths of a block and an offset whose value has a code up to `top`. */
  predicate Codable(s: Sequence, top: nat) {
    && s.literalLength < 131072 && 3 <= s.matchLength < 131075
    && 0 < s.offset && s.offset + 3 < Pow2(top + 1)
  }

  /** Extra bits of the three fields, combined in a 64-bit word. */
  function CombineExtra(ll: Split, ml: Split, of: Split): nat {
    BitOr(BitOr(ll.extra, Shl64(ml.extra, ll.bits)), Shl64(of.extra, ll.bits + ml.bits))
  }

  function PackOne(s: Sequence, reps: Reps): PackedSeq
    requires reps.r0 > 0 && s.matchLength >= 3
  {
    var ov := EncodeOffset(s.offset, s.literalLength, reps).offsetValue;
    var ll, ml, of := LlSplit(s.literalLength), MlSplit(s.matchLength), OfSplit(ov);
    PackedSeq(CombineExtra(ll, ml, of), ll.code, ml.code, of.code, ll.bits + ml.bits + of.bits)
  }

  lemma CombineIs(ll: Split, ml: Split, of: Split)
    requires ll.extra < Pow2(ll.bits) && ml.extra < Pow2(ml.bits) && of.extra < Pow2(of.bits)
    requires ll.bits + ml.bits + of.bits <= 63
    ensures CombineExtra(ll, ml, of) == ll.extra + Shl(ml.extra, ll.bits) + Shl(of.extra, ll.bits + ml.bits)
    ensures CombineExtra(ll, ml, of) < Pow2(ll.bits + ml.bits + of.bits)
  {
    hide Shl, Low, Pow2, BitOr, Push;
    Fits(ml.extra, ml.bits, ll.bits, 64);
    Fits(of.extra, of.bits, ll.bits + ml.bits, 64);
    OrDisjoint(ll.extra, ml.extra, ll.bits);
    PushPush(EMPTY, ll.extra, ll.bits, ml.extra, ml.bits);
    var low := ll.extra + Shl(ml.extra, ll.bits);
    OrDisjoint(low, of.extra, ll.bits + ml.bits);
    PushPush(EMPTY, low, ll.bits + ml.bits, of.extra, of.bits);
  }

  /** A field shifted in a word that it fits loses no bit. */
  lemma Fits(x: nat, n: nat, shift: nat, width: nat)
    requires x < Pow2(n) && n + shift <= width
    ensures Low(Shl(x, shift), width) == Shl(x, shift)
  {
    hide Shl, Low, Pow2;
    ShlBelow(x, n, shift);
    Pow2Mono(n + shift, width);
    LowOfSmall(Shl(x, shift), width);
  }

  lemma CombinedValue(ll: Split, ml: Split, of: Split, llX: Extra, mlX: Extra, ofX: Extra)
    requires ll.bits == llX.bits && ml.bits == mlX.bits && of.bits == ofX.bits
    requires ll.extra < Pow2(ll.bits) && ml.extra < Pow2(ml.bits) && of.extra < Pow2(of.bits)
    requires ll.bits + ml.bits + of.bits <= 63
    ensures ValueWith(CombineExtra(ll, ml, of), llX, mlX, ofX)
      == RawSeq(llX.base + ll.extra, mlX.base + ml.extra, ofX.base + of.extra)
  {
    hide Shl, Low, Shr, Pow2, BitOr, CombineExtra;
    CombineIs(ll, ml, of);
    var x := CombineExtra(ll, ml, of);
    var hi := ml.extra + Shl(of.extra, ml.bits);
    ShlAdd(ml.extra, Shl(of.extra, ml.bits), ll.bits);
    ShlShl(of.extra, ml.bits, ll.bits);
    SplitUnique(ll.extra, hi, ll.bits);
    SplitUnique(ml.extra, of.extra, ml.bits);
    ShrShr(x, ll.bits, ml.bits);
  }

  lemma EncodedValue(offset: nat, ll: nat, reps: Reps)
    requires reps.NonZero()
    ensures 0 < EncodeOffset(offset, ll, reps).offsetValue <= offset + 3
  {
  }

  /** A packed sequence stands for its lengths and its offset value. */
  lemma PackOneValue(s: Sequence, reps: Reps, top: nat)
    requires reps.NonZero() && Codable(s, top) && top <= OF_MAX
    ensures var p := PackOne(s, reps);
      && p.llC <= LL_MAX && p.mlC <= ML_MAX && p.ofC <= top
      && p.extraNbits == LlExtra(p.llC).bits + MlExtra(p.mlC).bits + OfExtra(p.ofC).bits
      && p.extraBits < Pow2(p.extraNbits)
      && ValueOf(p) == RawSeq(s.literalLength, s.matchLength, EncodeOffset(s.offset, s.literalLength, reps).offsetValue)
  {
    hide Shl, Low, Shr, Pow2, BitOr, CombineExtra, EncodeOffset, LlSplit, MlSplit, OfSplit, HighBit, ValueWith,
         LlExtra, MlExtra, OfExtra;
    EncodedValue(s.offset, s.literalLength, reps);
    var ov := EncodeOffset(s.offset, s.literalLength, reps).offsetValue;
    var ll, ml, of := LlSplit(s.literalLength), MlSplit(s.matchLength), OfSplit(ov);
    LlSplitDecodes(s.literalLength);
    MlSplitDecodes(s.matchLength);
    OfSplitDecodes(ov, top);
    ExtraBounds(LiteralLength, ll.code);
    ExtraBounds(MatchLength, ml.code);
    ExtraBounds(OffsetCode, of.code);
    CombineIs(ll, ml, of);
    CombinedValue(ll, ml, of, LlExtra(ll.code), MlExtra(ml.code), OfExtra(of.code));
  }

  // ----- all sequences -----

  ghost predicate AllCodable(seqs: seq<Sequence>, top: nat) {
    forall i :: 0 <= i < |seqs| ==> Codable(seqs[i], top)
  }

  function Coded1(s: Sequence, reps: Reps): Coded
    requires reps.r0 > 0
  {
    EncodeOffset(s.offset, s.literalLength, reps)
  }

  /** The repeat offsets stay nonzero. */
  lemma CodedKeeps(s: Sequence, reps: Reps)
    requires reps.NonZero() && s.offset > 0
    ensures Coded1(s, reps).reps.NonZero() && Coded1(s, reps).offsetValue > 0
    ensures DecodeOffset(Coded1(s, reps).offsetValue, s.literalLength, reps) == Offset(s.offset, Coded1(s, reps).reps)
  {
    OffsetRoundTrip(s.offset, s.literalLength, reps);
  }

  ghost predicate Offsets(seqs: seq<Sequence>) {
    forall i :: 0 <= i < |seqs| ==> seqs[i].offset > 0
  }

  /** The repeat offsets after the sequences. */
  function RepsAfter(seqs: seq<Sequence>, reps: Reps): (r: Reps)
    requires reps.NonZero() && Offsets(seqs)
    ensures r.NonZero()
    decreases |seqs|
  {
    if |seqs| == 0 then reps
    else
      CodedKeeps(seqs[0], reps);
      RepsAfter(seqs[1..], Coded1(seqs[0], reps).reps)
  }

  /** What the decoder reads for them. */
  function Raws(seqs: seq<Sequence>, reps: Reps): (r: seq<RawSeq>)
    requires reps.NonZero() && Offsets(seqs)
    ensures |r| == |seqs| && forall i :: 0 <= i < |r| ==> r[i].offsetValue > 0
    decreases |seqs|
  {
    if |seqs| == 0 then []
    else
      CodedKeeps(seqs[0], reps);
      [RawSeq(seqs[0].literalLength, seqs[0].matchLength, Coded1(seqs[0], reps).offsetValue)]
      + Raws(seqs[1..], Coded1(seqs[0], reps).reps)
  }

  function PackAll(seqs: seq<Sequence>, reps: Reps): (p: seq<PackedSeq>)
    requires reps.NonZero() && Offsets(seqs) && forall i :: 0 <= i < |seqs| ==> seqs[i].matchLength >= 3
    ensures |p| == |seqs|
    decreases |seqs|
  {
    if |seqs| == 0 then []
    else
      CodedKeeps(seqs[0], reps);
      [PackOne(seqs[0], reps)] + PackAll(seqs[1..], Coded1(seqs[0], reps).reps)
  }

  lemma {:induction false} PackedCodes(seqs: seq<Sequence>, reps: Reps, top: nat, i: nat)
    requires reps.NonZero() && AllCodable(seqs, top) && top <= OF_MAX && i < |seqs|
    ensures Offsets(seqs) && forall j :: 0 <= j < |seqs| ==> seqs[j].matchLength >= 3
    ensures var p := PackAll(seqs, reps)[i];
      && p.llC <= LL_MAX && p.mlC <= ML_MAX && p.ofC <= top
      && p.extraNbits == LlExtra(p.llC).bits + MlExtra(p.mlC).bits + OfExtra(p.ofC).bits
      && p.extraBits < Pow2(p.extraNbits)
      && ValueOf(p) == Raws(seqs, reps)[i]
    decreases |seqs|
  {
    hide Codable, PackOne, ValueOf, Pow2, LlExtra, MlExtra, OfExtra, EncodeOffset, DecodeOffset;
    assert Offsets(seqs) && (forall j :: 0 <= j < |seqs| ==> seqs[j].matchLength >= 3) by {
      CodableParts(seqs, top);
    }
    CodedKeeps(seqs[0], reps);
    if i == 0 {
      PackOneValue(seqs[0], reps, top);
    } else {
      PackedCodes(seqs[1..], Coded1(seqs[0], reps).reps, top, i - 1);
    }
  }

  lemma CodableParts(seqs: seq<Sequence>, top: nat)
    requires AllCodable(seqs, top)
    ensures Offsets(seqs) && forall j :: 0 <= j < |seqs| ==> seqs[j].matchLength >= 3
  {
  }

  /** The packed list stands for the sequences. */
  lemma {:induction false} ValuesAreRaws(seqs: seq<Sequence>, reps: Reps, top: nat, k: nat)
    requires reps.NonZero() && AllCodable(seqs, top) && top <= OF_MAX && k <= |seqs|
    ensures Offsets(seqs) && forall j :: 0 <= j < |seqs| ==> seqs[j].matchLength >= 3
    ensures CodesInRange(PackAll(seqs, reps)) && Values(PackAll(seqs, reps), k) == Raws(seqs, reps)[k..]
    decreases |seqs| - k
  {
    hide Codable, PackOne, ValueOf, PackAll, Raws;
    CodableParts(seqs, top);
    var p := PackAll(seqs, reps);
    forall i | 0 <= i < |p| ensures p[i].llC <= LL_MAX && p[i].mlC <= ML_MAX && p[i].ofC <= OF_MAX {
      PackedCodes(seqs, reps, top, i);
    }
    if k < |seqs| {
      PackedCodes(seqs, reps, top, k);
      ValuesAreRaws(seqs, reps, top, k + 1);
    }
  }

  // ----- replay -----

  /** One sequence of a parse, executed. */
  lemma ExecMatches(history: seq<byte>, out: seq<byte>, src: seq<byte>, at: nat, s: Sequence, lits: seq<byte>, lp: nat, limit: nat)
    requires Matches(history + out + src, |history| + |out| + at, s) && |out| + |src| <= limit && at <= |src|
    requires lp <= |lits| && s.literalLength <= |lits| - lp && lits[lp..lp + s.literalLength] == src[at..at + s.literalLength]
    ensures ExecSeq(history, out + src[..at], lits, lp, s.literalLength, s.matchLength, s.offset, limit)
      == Ok(out + src[..at + s.Span()])
  {
    hide CopyMatch;
    var w := history + out + src;
    var mid := at + s.literalLength;
    var out' := out + src[..at] + src[at..mid];
    assert out' == out + src[..mid];
    assert history + out' == w[..|history| + |out| + mid];
    RepeatsIsCopy(w, history + out', s.offset, s.matchLength);
    assert w[..|history| + |out| + at + s.Span()][|history|..] == out + src[..at + s.Span()];
  }

  /** Executing the sequences' values, as they are decoded, replays the parse. */
  lemma {:induction false} ReplayFrom(history: seq<byte>, out: seq<byte>, src: seq<byte>, at: nat, seqs: seq<Sequence>,
                                      lits: seq<byte>, lp: nat, reps: Reps, limit: nat, o: seq<byte>)
    requires reps.NonZero() && Offsets(seqs) && |out| + |src| <= limit
    requires at + Span(seqs) <= |src| && Parses(history + out + src, |history| + |out| + at, seqs)
    requires lp <= |lits| && Literals(src, at, seqs) <= lits[lp..] && o == out + src[..at]
    ensures ExecMany(Scope(history, lits, limit), BlockState(o, lp, reps), Raws(seqs, reps))
      == Some(BlockState(out + src[..at + Span(seqs)], lp + |Literals(src, at, seqs)|, RepsAfter(seqs, reps)))
    decreases |seqs|
  {
    hide Matches, Coded1, DecodeOffset, ExecSeq;
    if |seqs| > 0 {
      var s := seqs[0];
      var reps' := Coded1(s, reps).reps;
      CodedKeeps(s, reps);
      var rest := Literals(src, at + s.Span(), seqs[1..]);
      var own := src[at..at + s.literalLength];
      assert lits[lp..][..s.literalLength] == own && lits[lp..lp + s.literalLength] == lits[lp..][..s.literalLength] by {
        assert (own + rest)[..s.literalLength] == own;
      }
      assert rest <= lits[lp + s.literalLength..] by {
        assert lits[lp + s.literalLength..] == lits[lp..][s.literalLength..];
        assert (own + rest)[s.literalLength..] == rest;
      }
      ExecMatches(history, out, src, at, s, lits, lp, limit);
      var raws := Raws(seqs, reps);
      assert raws[1..] == Raws(seqs[1..], reps');
      ReplayFrom(history, out, src, at + s.Span(), seqs[1..], lits, lp + s.literalLength, reps', limit,
                 out + src[..at + s.Span()]);
    }
  }

  /** From a block's start to its last match. */
  lemma ReplayAll(history: seq<byte>, out: seq<byte>, src: seq<byte>, seqs: seq<Sequence>, reps: Reps, limit: nat,
                  lits: seq<byte>, head: seq<byte>, n: nat)
    requires reps.NonZero() && Offsets(seqs) && |out| + |src| <= limit
    requires Span(seqs) <= |src| && Parses(history + out + src, |history| + |out|, seqs)
    requires n == Span(seqs) && head == Literals(src, 0, seqs) && lits == head + src[n..]
    ensures ExecMany(Scope(history, lits, limit), BlockState(out, 0, reps), Raws(seqs, reps))
      == Some(BlockState(out + src[..n], |head|, RepsAfter(seqs, reps)))
  {
    hide ExecMany, Raws, Parses, RepsAfter, ExecRaw, WithRest, Literals, Span;
    Beginning(out, src, lits, head);
    ReplayFrom(history, out, src, 0, seqs, lits, 0, reps, limit, out);
    var e := ExecMany(Scope(history, lits, limit), BlockState(out, 0, reps), Raws(seqs, reps));
    assert e.value.out == out + src[..n] && e.value.lp == |head| && e.value.reps == RepsAfter(seqs, reps);
  }

  lemma Beginning(out: seq<byte>, src: seq<byte>, lits: seq<byte>, head: seq<byte>)
    requires head <= lits
    ensures out + src[..0] == out && head <= lits[0..]
  {
  }

  /** A whole block: its parse and its literals give the block back, and the
      encoder's repeat offsets. */
  lemma ReplayBlock(history: seq<byte>, out: seq<byte>, src: seq<byte>, seqs: seq<Sequence>, reps: Reps, limit: nat)
    requires reps.NonZero() && Offsets(seqs) && |out| + |src| <= limit
    requires Span(seqs) <= |src| && Parses(history + out + src, |history| + |out|, seqs)
    ensures var sc := Scope(history, AllLiterals(src, seqs), limit);
      match ExecMany(sc, BlockState(out, 0, reps), Raws(seqs, reps))
      case None => false
      case Some(st) => WithRest(sc, st) == Some((out + src, RepsAfter(seqs, reps)))
  {
    hide ExecMany, Raws, Parses, RepsAfter, ExecRaw, WithRest, Literals;
    var lits, head, n := AllLiterals(src, seqs), Literals(src, 0, seqs), Span(seqs);
    ReplayAll(history, out, src, seqs, reps, limit, lits, head, n);
    RestCompletes(history, out, src, n, head, RepsAfter(seqs, reps), limit);
  }

  /** The literals left after the last match complete the block. */
  lemma RestCompletes(history: seq<byte>, out: seq<byte>, src: seq<byte>, n: nat, head: seq<byte>, reps: Reps, limit: nat)
    requires n <= |src| && |out| + |src| <= limit
    ensures WithRest(Scope(history, head + src[n..], limit), BlockState(out + src[..n], |head|, reps)) == Some((out + src, reps))
  {
    assert (head + src[n..])[|head|..] == src[n..];
    assert out + src[..n] + src[n..] == out + src;
  }
}
