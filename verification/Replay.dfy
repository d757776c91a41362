/** Sequence execution as section 3.1.1.4 of RFC 8878 states it: literals, then
    a match copied one byte at a time, so that it may overlap itself. */
module Replay {
  import opened Arith
  import opened Wrappers

  /** Appends `n` bytes, each the byte `offset` back. */
  function CopyMatch(out: seq<byte>, offset: nat, n: nat): (r: seq<byte>)
    requires 0 < offset <= |out|
    ensures |r| == |out| + n
    decreases n
  {
    if n == 0 then out else CopyMatch(out + [out[|out| - offset]], offset, n - 1)
  }

  /** From `lo` up to `hi`, each byte repeats the one `offset` back. */
  ghost predicate Repeats(s: seq<byte>, lo: nat, hi: nat, offset: nat)
    requires offset <= lo && hi <= |s|
  {
    forall k :: lo <= k < hi ==> s[k] == s[k - offset]
  }

  /** A copied match is the one extension that repeats at the offset. */
  lemma {:induction false} CopyMatchRepeats(out: seq<byte>, offset: nat, n: nat)
    requires 0 < offset <= |out|
    ensures CopyMatch(out, offset, n)[..|out|] == out
    ensures Repeats(CopyMatch(out, offset, n), |out|, |out| + n, offset)
    decreases n
  {
    if n > 0 {
      var next := out + [out[|out| - offset]];
      CopyMatchRepeats(next, offset, n - 1);
      var r := CopyMatch(out, offset, n);
      assert r[..|next|] == next;
      assert r[..|out|] == next[..|out|];
      assert r[|out|] == next[|out|] && r[|out| - offset] == next[|out| - offset];
    }
  }

  lemma {:induction false} RepeatsUnique(a: seq<byte>, b: seq<byte>, lo: nat, offset: nat)
    requires |a| == |b| && 0 < offset <= lo <= |a| && a[..lo] == b[..lo]
    requires Repeats(a, lo, |a|, offset) && Repeats(b, lo, |b|, offset)
    ensures a == b
    decreases |a| - lo
  {
    if lo < |a| {
      assert a[lo] == a[lo - offset] == a[..lo][lo - offset] == b[lo - offset] == b[lo];
      assert a[..lo + 1] == a[..lo] + [a[lo]];
      assert b[..lo + 1] == b[..lo] + [b[lo]];
      RepeatsUnique(a, b, lo + 1, offset);
    } else {
      assert a == a[..lo] && b == b[..lo];
    }
  }

  /** So any buffer that repeats at the offset holds the copied match. */
  lemma RepeatsIsCopy(s: seq<byte>, out: seq<byte>, offset: nat, n: nat)
    requires 0 < offset <= |out| && |out| + n <= |s| && s[..|out|] == out
    requires Repeats(s, |out|, |out| + n, offset)
    ensures s[..|out| + n] == CopyMatch(out, offset, n)
  {
    CopyMatchRepeats(out, offset, n);
    var a := s[..|out| + n];
    assert a[..|out|] == s[..|out|];
    RepeatsUnique(a, CopyMatch(out, offset, n), |out|, offset);
  }

  /** A match may be copied in two parts. */
  lemma {:induction false} CopyMatchSplit(out: seq<byte>, offset: nat, a: nat, b: nat)
    requires 0 < offset <= |out|
    ensures CopyMatch(out, offset, a + b) == CopyMatch(CopyMatch(out, offset, a), offset, b)
    decreases a
  {
    if a > 0 {
      CopyMatchSplit(out + [out[|out| - offset]], offset, a - 1, b);
    }
  }

  /** A match does not see what is in front of its reach. */
  lemma {:induction false} CopyMatchBehind(base: seq<byte>, out: seq<byte>, offset: nat, n: nat)
    requires 0 < offset <= |out|
    ensures CopyMatch(base + out, offset, n) == base + CopyMatch(out, offset, n)
    decreases n
  {
    if n > 0 {
      var b := out[|out| - offset];
      assert base + out + [b] == base + (out + [b]);
      CopyMatchBehind(base, out + [b], offset, n - 1);
    }
  }

  /** A match no longer than its offset is a slice. */
  lemma CopyMatchSlice(out: seq<byte>, offset: nat, n: nat)
    requires 0 < offset <= |out| && n <= offset
    ensures CopyMatch(out, offset, n) == out + out[|out| - offset..|out| - offset + n]
  {
    var s := out + out[|out| - offset..|out| - offset + n];
    RepeatsIsCopy(s, out, offset, n);
    assert s[..|out| + n] == s;
  }

  /** One sequence after the history before the frame and the frame's output:
      the output after it, or the decoder's error. `limit` is the most output
      the block may reach. */
  function ExecSeq(history: seq<byte>, out: seq<byte>, lits: seq<byte>, lp: nat,
                   ll: nat, ml: nat, offset: nat, limit: nat): (r: Result<seq<byte>, DecodeError>)
    ensures r.Ok? ==> |r.value| == |out| + ll + ml && |r.value| <= limit
  {
    if |out| + ll + ml > limit then Err(CorruptSequences)
    else if lp > |lits| || ll > |lits| - lp then Err(CorruptLiterals)
    else
      var out' := out + lits[lp..lp + ll];
      if offset == 0 || offset > |history| + |out'| then Err(InvalidOffset)
      else Ok(CopyMatch(history + out', offset, ml)[|history|..])
  }

  /** A sequence only appends. */
  lemma ExecSeqAppends(history: seq<byte>, out: seq<byte>, lits: seq<byte>, lp: nat,
                       ll: nat, ml: nat, offset: nat, limit: nat)
    requires ExecSeq(history, out, lits, lp, ll, ml, offset, limit).Ok?
    ensures out <= ExecSeq(history, out, lits, lp, ll, ml, offset, limit).value
  {
    hide CopyMatch;
    var out' := out + lits[lp..lp + ll];
    CopyMatchRepeats(history + out', offset, ml);
    var m := CopyMatch(history + out', offset, ml);
    assert m[|history|..][..|out|] == m[..|history| + |out'|][|history|..][..|out|] == out;
  }
}
