/** The executor of a block with one sequence: appends to the output vector and
    doubles overlapping matches. Its result is the byte-at-a-time one too. */
module BlockOutput {
  import opened Arith
  import opened Wrappers
  import opened Replay
  import opened Executor

  lemma {:induction false} MultipleAdd(a: nat, b: nat, offset: nat)
    requires offset > 0 && IsMultiple(a, offset) && IsMultiple(b, offset)
    ensures IsMultiple(a + b, offset)
    decreases b
  {
    if b > offset {
      MultipleAdd(a, b - offset, offset);
    }
  }

  /** A stretch appended from a multiple of the offset back. */
  lemma AppendRepeats(s: seq<byte>, at: nat, d: nat, n: nat, offset: nat)
    requires 0 < offset <= at && at + d == |s| && n <= d
    requires IsMultiple(d, offset) && Repeats(s, at, |s|, offset)
    ensures Repeats(s + s[at..at + n], at, |s| + n, offset)
  {
    var r := s + s[at..at + n];
    assert r[at..at + n] == s[at..at + n];
    assert Chunked(r, |s|, d, n) == r;
    ChunkRepeats(r, at, d, n, d, offset);
  }

  class BlockOutput {
    var vec: seq<byte>
    const blockLimit: nat

    constructor (output: seq<byte>, maxBlockSize: nat)
      ensures vec == output && blockLimit == |output| + maxBlockSize
    {
      vec, blockLimit := output, |output| + maxBlockSize;
    }

    /** Appends `src[start..start + len]`; a short run appends sixteen bytes and
        cuts them back. */
    method ExtendSliceRange(src: seq<byte>, start: nat, len: nat)
      requires start + len <= |src|
      modifies this
      ensures vec == old(vec) + src[start..start + len]
    {
      if len <= 16 && |src| - start >= 16 {
        var end := |vec| + len;
        vec := vec + src[start..start + 16];
        vec := vec[..end];
      } else {
        vec := vec + src[start..start + len];
      }
    }

    /** Appends a match within the output. */
    method WildCopyMatch(offset: nat, len: nat)
      requires 0 < offset <= |vec|
      modifies this
      ensures vec == CopyMatch(old(vec), offset, len)
    {
      hide CopyMatch;
      ghost var out := vec;
      var start := |vec| - offset;
      if offset >= len {
        vec := vec + vec[start..start + len];
      } else if offset == 1 {
        var last := vec[start];
        vec := vec + seq(len, _ => last);
      } else {
        vec := vec + vec[start..start + offset];
        var copied := offset;
        while copied < len
          invariant offset <= copied <= len && |vec| == |out| + copied && vec[..|out|] == out
          invariant Repeats(vec, |out|, |vec|, offset)
          invariant copied < len ==> IsMultiple(copied, offset)
        {
          var n := Min(len - copied, copied);
          var src := |vec| - copied;
          AppendRepeats(vec, |out|, copied, n, offset);
          MultipleAdd(copied, copied, offset);
          vec := vec + vec[src..src + n];
          copied := copied + n;
        }
      }
      RepeatsIsCopy(vec, out, offset, len);
    }

    /** A match that starts in the history before the frame. */
    method CopyMatchFromHistory(history: seq<byte>, offset: nat, outPos: nat, ml: nat) returns (ok: bool)
      requires outPos <= |vec| && offset > outPos
      modifies this
      ensures ok <==> offset <= outPos + |history|
      ensures ok ==> vec == old(vec) + CopyMatch(history + old(vec)[|old(vec)| - outPos..], offset, ml)[|history| + outPos..]
    {
      hide CopyMatch;
      if offset <= outPos || offset > outPos + |history| {
        return false;
      }
      ghost var base := vec[..|vec| - outPos];
      ghost var out := vec[|vec| - outPos..];
      var historyReach := offset - outPos;
      var historyStart := |history| - historyReach;
      var fromHistory := Min(historyReach, ml);
      ExtendSliceRange(history, historyStart, fromHistory);
      var remaining := ml - fromHistory;
      assert vec == base + out + history[historyStart..historyStart + fromHistory];
      if remaining > 0 {
        WildCopyMatch(offset, remaining);
      }
      FromHistory(history, base, out, offset, fromHistory, ml);
      return true;
    }

    /** The block's sequence, after the output from `base` on: the result is
        `ExecSeq`'s. `hasHistory` is chosen by the caller. */
    method Execute(history: seq<byte>, hasHistory: bool, base: nat, lits: seq<byte>, ll: nat, ml: nat, offset: nat)
      returns (r: Result<nat, DecodeError>)
      requires base <= |vec| <= blockLimit && (hasHistory || history == [])
      modifies this
      ensures match ExecSeq(history, old(vec)[base..], lits, 0, ll, ml, offset, blockLimit - base)
        case Ok(out) => r == Ok(|vec|) && vec == old(vec)[..base] + out
        case Err(e) => r == Err(e)
    {
      ghost var before := vec;
      var remaining := blockLimit - |vec|;
      if ll > remaining || ml > remaining - ll {
        return Err(CorruptSequences);
      }
      if ll > |lits| {
        return Err(CorruptLiterals);
      }
      ExtendSliceRange(lits, 0, ll);
      var outPos := |vec| - base;
      ghost var out := vec[base..];
      assert out == before[base..] + lits[0..ll];
      if offset > outPos && hasHistory {
        var ok := CopyMatchFromHistory(history, offset, outPos, ml);
        if !ok {
          return Err(InvalidOffset);
        }
        CopyMatchRepeats(history + out, offset, ml);
        ghost var whole := CopyMatch(history + out, offset, ml);
        assert whole[|history|..] == out + whole[|history| + outPos..] by {
          assert whole[..|history| + outPos] == history + out;
        }
      } else {
        if offset == 0 || offset > outPos {
          return Err(InvalidOffset);
        }
        CopyInFrame(history, before[..base], out, offset, ml);
        assert vec == before[..base] + out;
        WildCopyMatch(offset, ml);
      }
      return Ok(|vec|);
    }
  }

  /** A match within the frame, with and without the bytes in front of it. */
  lemma CopyInFrame(history: seq<byte>, base: seq<byte>, out: seq<byte>, offset: nat, ml: nat)
    requires 0 < offset <= |out|
    ensures CopyMatch(base + out, offset, ml) == base + CopyMatch(history + out, offset, ml)[|history|..]
  {
    hide CopyMatch;
    CopyMatchBehind(base, out, offset, ml);
    CopyMatchBehind(history, out, offset, ml);
  }

  /** A match from the history: a slice of it, then the frame from its start. */
  lemma FromHistory(history: seq<byte>, base: seq<byte>, out: seq<byte>, offset: nat, n: nat, ml: nat)
    requires |out| < offset <= |history| + |out| && n == Min(offset - |out|, ml)
    ensures var start := |history| + |out| - offset;
      var head := base + out + history[start..start + n];
      && (n < ml ==> offset <= |head|)
      && (if n < ml then CopyMatch(head, offset, ml - n) else head)
        == base + out + CopyMatch(history + out, offset, ml)[|history| + |out|..]
  {
    hide CopyMatch;
    var start := |history| + |out| - offset;
    var tail := history[start..start + n];
    CopyMatchSlice(history + out, offset, n);
    assert (history + out)[start..start + n] == tail;
    assert history + out + tail == history + (out + tail);
    if n < ml {
      CopyMatchSplit(history + out, offset, n, ml - n);
      CopyMatchBehind(history, out + tail, offset, ml - n);
      CopyMatchBehind(base, out + tail, offset, ml - n);
      assert base + out + tail == base + (out + tail);
      CopyMatchRepeats(out + tail, offset, ml - n);
      var m := CopyMatch(out + tail, offset, ml - n);
      assert m == out + m[|out|..] by { assert m[..|out|] == m[..|out + tail|][..|out|]; }
    }
  }
}
