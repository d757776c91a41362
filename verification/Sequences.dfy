/** A block's parse: literal runs and matches that cover it in order. What the
    match finders must produce, and what its replay gives. */
module Sequences {
  import opened Arith
  import opened Replay

  datatype Sequence = Sequence(literalLength: nat, matchLength: nat, offset: nat) {
    function Span(): nat {
      literalLength + matchLength
    }
  }

  /** Bytes that sequences cover. */
  function Span(seqs: seq<Sequence>): nat {
    if |seqs| == 0 then 0 else seqs[0].Span() + Span(seqs[1..])
  }

  /** At `at` in `w`, the sequence's match repeats what lies its offset back. */
  ghost predicate Matches(w: seq<byte>, at: nat, s: Sequence) {
    && at + s.Span() <= |w| && 0 < s.offset <= at + s.literalLength
    && Repeats(w, at + s.literalLength, at + s.Span(), s.offset)
  }

  /** From `at` on, the sequences' matches repeat earlier bytes of `w`. */
  ghost predicate Parses(w: seq<byte>, at: nat, seqs: seq<Sequence>)
    decreases |seqs|
  {
    if |seqs| == 0 then at <= |w|
    else Matches(w, at, seqs[0]) && Parses(w, at + seqs[0].Span(), seqs[1..])
  }

  lemma {:induction false} ParsesInside(w: seq<byte>, at: nat, seqs: seq<Sequence>)
    requires Parses(w, at, seqs)
    ensures at + Span(seqs) <= |w|
    decreases |seqs|
  {
    if |seqs| > 0 {
      ParsesInside(w, at + seqs[0].Span(), seqs[1..]);
    }
  }

  lemma {:induction false} SpanConcat(a: seq<Sequence>, b: seq<Sequence>)
    ensures Span(a + b) == Span(a) + Span(b)
  {
    if |a| == 0 {
      assert a + b == b;
    } else {
      assert (a + b)[1..] == a[1..] + b;
      SpanConcat(a[1..], b);
    }
  }

  /** A parse may be continued where it ends. */
  lemma {:induction false} ParsesConcat(w: seq<byte>, at: nat, a: seq<Sequence>, b: seq<Sequence>)
    requires Parses(w, at, a) && Parses(w, at + Span(a), b)
    ensures Parses(w, at, a + b)
    decreases |a|
  {
    if |a| == 0 {
      assert a + b == b;
    } else {
      assert (a + b)[1..] == a[1..] + b;
      ParsesConcat(w, at + a[0].Span(), a[1..], b);
    }
  }

  lemma ParsesAppend(w: seq<byte>, at: nat, seqs: seq<Sequence>, s: Sequence)
    requires Parses(w, at, seqs) && Matches(w, at + Span(seqs), s)
    ensures Parses(w, at, seqs + [s]) && Span(seqs + [s]) == Span(seqs) + s.Span()
  {
    assert [s][1..] == [];
    assert Parses(w, at + Span(seqs) + s.Span(), []);
    ParsesConcat(w, at, seqs, [s]);
    SpanConcat(seqs, [s]);
    assert Span([s]) == s.Span() + Span([]);
  }

  /** A parse does not look past where it ends. */
  lemma {:induction false} ParsesPrefix(w: seq<byte>, at: nat, seqs: seq<Sequence>, e: nat)
    requires e <= |w| && at + Span(seqs) <= e
    ensures Parses(w, at, seqs) <==> Parses(w[..e], at, seqs)
    decreases |seqs|
  {
    if |seqs| > 0 {
      var s := seqs[0];
      MatchesPrefix(w, at, s, e);
      ParsesPrefix(w, at + s.Span(), seqs[1..], e);
    }
  }

  lemma MatchesPrefix(w: seq<byte>, at: nat, s: Sequence, e: nat)
    requires e <= |w| && at + s.Span() <= e
    ensures Matches(w, at, s) <==> Matches(w[..e], at, s)
  {
  }

  /** Nor past what it reaches back to. */
  lemma {:induction false} ParsesBehind(pre: seq<byte>, w: seq<byte>, at: nat, seqs: seq<Sequence>)
    requires Parses(w, at, seqs)
    ensures Parses(pre + w, |pre| + at, seqs)
    decreases |seqs|
  {
    if |seqs| > 0 {
      MatchesBehind(pre, w, at, seqs[0]);
      ParsesBehind(pre, w, at + seqs[0].Span(), seqs[1..]);
    }
  }

  lemma MatchesBehind(pre: seq<byte>, w: seq<byte>, at: nat, s: Sequence)
    requires Matches(w, at, s)
    ensures Matches(pre + w, |pre| + at, s)
  {
    var x := pre + w;
    var lo, hi := |pre| + at + s.literalLength, |pre| + at + s.Span();
    forall k | lo <= k < hi ensures x[k] == x[k - s.offset] {
      assert x[k] == w[k - |pre|] && x[k - s.offset] == w[k - |pre| - s.offset];
    }
  }

  /** The literals of a parse of `src` from `at` on. */
  function Literals(src: seq<byte>, at: nat, seqs: seq<Sequence>): seq<byte>
    requires at + Span(seqs) <= |src|
    decreases |seqs|
  {
    if |seqs| == 0 then []
    else src[at..at + seqs[0].literalLength] + Literals(src, at + seqs[0].Span(), seqs[1..])
  }

  /** All of a block's literals, the ones after its last match included. */
  function AllLiterals(src: seq<byte>, seqs: seq<Sequence>): seq<byte>
    requires Span(seqs) <= |src|
  {
    Literals(src, 0, seqs) + src[Span(seqs)..]
  }
}
