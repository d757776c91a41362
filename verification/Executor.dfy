/** The decoder's sequence executors, which copy whole chunks past the end of a
    run and overlap matches by spreading or doubling, proved to give exactly
    the byte-at-a-time result. */
module Executor {
  import opened Arith
  import opened Wrappers
  import opened Replay

  const WILDCOPY_OVERLENGTH: nat := 64
  const LITERAL_OVERREAD: nat := 32

  // ----- overlapping copies -----

  /** `d` is `offset`, or a larger multiple of it. */
  predicate IsMultiple(d: nat, offset: nat)
    requires offset > 0
    decreases d
  {
    d == offset || (d > offset && IsMultiple(d - offset, offset))
  }

  /** In a repeating stretch, going back by the offset or by a multiple of it
      meets the same byte. */
  lemma {:induction false} RepeatsBack(s: seq<byte>, lo: nat, hi: nat, offset: nat, x: nat, d: nat)
    requires 0 < offset <= lo && hi <= |s| && Repeats(s, lo, hi, offset)
    requires IsMultiple(d, offset) && lo + d - offset <= x <= |s| && x - offset < hi
    ensures s[x - offset] == s[x - d]
    decreases d
  {
    if d > offset {
      RepeatsBack(s, lo, hi, offset, x - offset, d - offset);
    }
  }

  /** A chunk of `n` bytes copied to `x` from `d` bytes back. */
  ghost function Chunked(s: seq<byte>, x: nat, d: nat, n: nat): (r: seq<byte>)
    requires d <= x && n <= d && x + n <= |s|
    ensures |r| == |s|
  {
    s[..x] + s[x - d..x - d + n] + s[x + n..]
  }

  /** The step of every chunked match copy: when the match repeats so far, a
      chunk taken from a multiple of the offset back continues it. */
  lemma ChunkRepeats(s: seq<byte>, at: nat, i: nat, n: nat, d: nat, offset: nat)
    requires 0 < offset <= at && at + i + n <= |s| && Repeats(s, at, at + i, offset)
    requires IsMultiple(d, offset) && n <= d <= i + offset && d <= at + i
    ensures Repeats(Chunked(s, at + i, d, n), at, at + i + n, offset)
    ensures Chunked(s, at + i, d, n)[..at] == s[..at]
  {
    var r := Chunked(s, at + i, d, n);
    forall k | at <= k < at + i + n ensures r[k] == r[k - offset] {
      if k >= at + i {
        if k - offset < at + i {
          RepeatsBack(s, at, at + i, offset, k, d);
        } else {
          assert s[k - d] == s[k - d - offset];
        }
      }
    }
  }

  /** Copies `n` bytes within `out`, reading them all before writing. */
  method Chunk(out: array<byte>, src: nat, dst: nat, n: nat)
    requires src + n <= dst && dst + n <= out.Length
    modifies out
    ensures out[..] == Chunked(old(out[..]), dst, dst - src, n)
  {
    ghost var before := out[..];
    var value := out[src..src + n];
    for j := 0 to n
      invariant out[..] == before[..dst] + value[..j] + before[dst + j..]
    {
      out[dst + j] := value[j];
    }
  }

  /** Bytes added to an overlapping match's source after its first four bytes,
      and then subtracted, per offset below eight. */
  function SpreadAdd(offset: nat): nat
    requires offset < 8
  {
    [0, 1, 2, 1, 4, 4, 4, 4][offset]
  }

  function SpreadSub(offset: nat): nat
    requires offset < 8
  {
    [8, 8, 8, 7, 8, 9, 10, 11][offset]
  }

  /** Where the spread's two chunks come from: multiples of the offset back that
      reach behind the bytes written so far. */
  lemma SpreadDistances(offset: nat)
    requires 0 < offset < 8
    ensures var d4 := 4 + offset - SpreadAdd(offset);
      IsMultiple(d4, offset) && 4 <= d4 <= 4 + offset
    ensures var d8 := offset - SpreadAdd(offset) + SpreadSub(offset);
      IsMultiple(d8, offset) && 8 <= d8 <= 8 + offset
  {
    assert IsMultiple(4, 1) && IsMultiple(8, 1);
  }

  // ----- whole-chunk match copies -----

  /** The chunk loop: `i` bytes of the match are there, and each chunk of `n`
      comes from `d` bytes back. */
  method Chunks(out: array<byte>, at: nat, start: nat, n: nat, d: nat, offset: nat, len: nat)
    requires 0 < offset <= at && 0 < n <= 32 && at + len + 32 <= out.Length && at + start <= out.Length
    requires IsMultiple(d, offset) && n <= d <= start + offset && Repeats(out[..], at, at + start, offset)
    modifies out
    ensures out[..at] == old(out[..at])
    ensures Repeats(out[..], at, at + Max(start, len), offset)
  {
    hide IsMultiple, Chunked;
    var i := start;
    while i < len
      invariant start <= i && at + i <= out.Length
      invariant out[..at] == old(out[..at]) && Repeats(out[..], at, at + i, offset)
    {
      ChunkRepeats(out[..], at, i, n, d, offset);
      assert out[..][..at] == out[..at];
      Chunk(out, at + i - d, at + i, n);
      assert out[..][..at] == out[..at];
      i := i + n;
    }
  }

  /** The first chunk of a match. */
  method FirstChunk(out: array<byte>, at: nat, n: nat, offset: nat)
    requires 0 < n <= offset <= at && at + n <= out.Length
    modifies out
    ensures out[..at] == old(out[..at]) && Repeats(out[..], at, at + n, offset)
  {
    ChunkRepeats(out[..], at, 0, n, offset, offset);
    assert out[..][..at] == out[..at];
    Chunk(out, at - offset, at, n);
    assert out[..][..at] == out[..at];
  }

  /** The first eight bytes of a match with an offset below eight: four bytes one
      at a time, then four in a chunk. */
  method SpreadHead(out: array<byte>, at: nat, src: nat, offset: nat) returns (src': nat)
    requires 0 < offset < 8 && offset <= at && src == at - offset && at + 8 <= out.Length
    modifies out
    ensures out[..at] == old(out[..at]) && Repeats(out[..], at, at + 8, offset)
    ensures src' == at + 8 - (offset - SpreadAdd(offset) + SpreadSub(offset))
  {
    hide IsMultiple, Chunked;
    for k: nat := 0 to 4
      invariant out[..at] == old(out[..at]) && Repeats(out[..], at, at + k, offset)
    {
      out[at + k] := out[src + k];
    }
    SpreadDistances(offset);
    src' := src + SpreadAdd(offset);
    ChunkRepeats(out[..], at, 4, 4, 4 + offset - SpreadAdd(offset), offset);
    assert out[..][..at] == out[..at];
    Chunk(out, src', at + 4, 4);
    assert out[..][..at] == out[..at];
    src' := src' + 8 - SpreadSub(offset);
  }

  /** A match of `len` bytes from `src`, `offset` bytes before `at`, in whole
      chunks. */
  method WildMatch(out: array<byte>, at: nat, src: nat, offset: nat, len: nat)
    requires 0 < offset <= at && src == at - offset && at + len + WILDCOPY_OVERLENGTH <= out.Length
    modifies out
    ensures out[..at] == old(out[..at]) && Repeats(out[..], at, at + len, offset)
  {
    if offset >= 32 {
      FirstChunk(out, at, 32, offset);
      Chunks(out, at, 32, 32, offset, offset, len);
    } else if offset >= 16 {
      FirstChunk(out, at, 16, offset);
      Chunks(out, at, 16, 16, offset, offset, len);
    } else if offset >= 8 {
      FirstChunk(out, at, 8, offset);
      Chunks(out, at, 8, 8, offset, offset, len);
    } else {
      SpreadDistances(offset);
      var src' := SpreadHead(out, at, src, offset);
      Chunks(out, at, 8, 8, at + 8 - src', offset, len);
    }
  }

  // ----- one block's sequence output -----

  /** A block's literals, at the front of `fast`, and the slack after them. */
  datatype Literals = Literals(fast: seq<byte>, len: nat) {
    predicate Valid() {
      len <= |fast| <= len + LITERAL_OVERREAD
    }

    function AsSlice(): seq<byte>
      requires Valid()
    {
      fast[..len]
    }
  }

  /** The output from the frame's first byte, with room for the block and the
      overlength, and the output position. */
  class SeqOut {
    const buf: array<byte>
    var op: nat

    ghost predicate Valid()
      reads this
    {
      op + WILDCOPY_OVERLENGTH <= buf.Length
    }

    function Limit(): nat
      requires buf.Length >= WILDCOPY_OVERLENGTH
    {
      buf.Length - WILDCOPY_OVERLENGTH
    }

    ghost function Output(): seq<byte>
      requires Valid()
      reads this, buf
    {
      buf[..op]
    }

    constructor (room: array<byte>, at: nat)
      requires at + WILDCOPY_OVERLENGTH <= room.Length
      ensures buf == room && op == at && Valid()
    {
      buf, op := room, at;
    }

    /** Writes `bytes` at `at`. */
    method Put(at: nat, bytes: seq<byte>)
      requires at + |bytes| <= buf.Length
      modifies buf
      ensures buf[..at + |bytes|] == old(buf[..at]) + bytes
    {
      ghost var before := buf[..at];
      for j := 0 to |bytes|
        invariant buf[..at + j] == before + bytes[..j]
      {
        buf[at + j] := bytes[j];
      }
    }

    /** Literals in whole 32-byte chunks, read and written past their end. */
    method WildLiterals(at: nat, lits: seq<byte>, lp: nat, len: nat)
      requires lp + len + LITERAL_OVERREAD <= |lits| && at + len + WILDCOPY_OVERLENGTH <= buf.Length
      modifies buf
      ensures buf[..at + len] == old(buf[..at]) + lits[lp..lp + len]
    {
      ghost var before := buf[..at];
      Put(at, lits[lp..lp + 32]);
      var i := 32;
      while i < len
        invariant 0 <= i <= len + 32
        invariant buf[..at + i] == before + lits[lp..lp + i]
      {
        var d, s := at + i, lp + i;
        Put(d, lits[s..s + 32]);
        assert lits[lp..lp + i + 32] == lits[lp..lp + i] + lits[s..s + 32];
        i := i + 32;
      }
      assert buf[..at + len] == buf[..at + i][..at + len];
    }

    /** One sequence: its literals, then its match, in whole chunks when the
        literals have the slack and the match starts in the frame. The result is
        the byte-at-a-time one, errors included, and the output before the block
        is kept. */
    method Execute(lits: Literals, lp: nat, ll: nat, ml: nat, offset: nat, history: seq<byte>)
      returns (r: Result<nat, DecodeError>)
      requires Valid() && lits.Valid()
      modifies this`op, buf
      ensures Valid()
      ensures match ExecSeq(history, old(Output()), lits.AsSlice(), lp, ll, ml, offset, Limit())
        case Ok(out) => r == Ok(op) && Output() == out
        case Err(e) => r == Err(e) && Output() == old(Output())
    {
      ghost var before := Output();
      var litEnd := op + ll;
      var matchEnd := litEnd + ml;
      if matchEnd + WILDCOPY_OVERLENGTH > buf.Length {
        return Err(CorruptSequences);
      }
      if offset <= litEnd && lp + ll + LITERAL_OVERREAD <= |lits.fast| && offset != 0 {
        WildLiterals(op, lits.fast, lp, ll);
        ghost var out := buf[..litEnd];
        PrefixSlice(lits.fast, lits.len, lp, lp + ll);
        WildMatch(buf, litEnd, litEnd - offset, offset, ml);
        MatchInFrame(history, buf[..], out, offset, ml);
        op := matchEnd;
        return Ok(op);
      } else {
        var exact := ExecuteExact(lits.AsSlice(), lp, ll, ml, offset, history);
        if exact.Ok? {
          op := exact.value;
        }
        return exact;
      }
    }

    /** A sequence near the end of the literals, or whose offset reaches before
        the frame or is invalid. */
    method ExecuteExact(lits: seq<byte>, lp: nat, ll: nat, ml: nat, offset: nat, history: seq<byte>)
      returns (r: Result<nat, DecodeError>)
      requires Valid() && op + ll + ml + WILDCOPY_OVERLENGTH <= buf.Length
      modifies buf
      ensures match ExecSeq(history, old(Output()), lits, lp, ll, ml, offset, Limit())
        case Ok(out) => r == Ok(op + ll + ml) && buf[..op + ll + ml] == out
        case Err(e) => r == Err(e) && Output() == old(Output())
    {
      hide CopyMatch;
      if lp > |lits| || ll > |lits| - lp {
        return Err(CorruptLiterals);
      }
      Put(op, lits[lp..lp + ll]);
      assert buf[..op] == buf[..op + ll][..op];
      var ok := MatchExact(op + ll, ml, offset, history);
      assert buf[..op] == buf[..op + ll][..op];
      return if ok then Ok(op + ll + ml) else Err(InvalidOffset);
    }

    /** Its match, which may start in the history before the frame and continue
        from the frame's first byte. */
    method MatchExact(litEnd: nat, ml: nat, offset: nat, history: seq<byte>) returns (ok: bool)
      requires litEnd + ml + WILDCOPY_OVERLENGTH <= buf.Length
      modifies buf
      ensures ok <==> 0 < offset <= |history| + litEnd
      ensures buf[..litEnd] == old(buf[..litEnd])
      ensures ok ==> buf[..litEnd + ml] == CopyMatch(history + old(buf[..litEnd]), offset, ml)[|history|..]
    {
      ghost var out := buf[..litEnd];
      if offset == 0 {
        return false;
      }
      var done: nat := 0;
      if offset > litEnd {
        var before := offset - litEnd;
        if before > |history| {
          return false;
        }
        var start := |history| - before;
        done := Min(before, ml);
        Put(litEnd, history[start..start + done]);
      }
      ghost var from := buf[..litEnd + done];
      assert from[..litEnd] == out;
      if ml > done {
        var at := litEnd + done;
        WildMatch(buf, at, at - offset, offset, ml - done);
      }
      assert buf[..][..litEnd + done] == from;
      MatchFromHistory(history, buf[..], out, offset, done, ml);
      assert buf[..litEnd] == from[..litEnd];
      return true;
    }

    /** The literals after the last sequence, copied exactly. */
    method ExtendLiterals(lits: Literals, lp: nat, len: nat) returns (r: Result<nat, DecodeError>)
      requires Valid() && lits.Valid()
      modifies this`op, buf
      ensures Valid()
      ensures r.Ok? <==> lp + len <= lits.len && old(op) + len <= Limit()
      ensures r.Ok? ==> r == Ok(op) && Output() == old(Output()) + lits.AsSlice()[lp..lp + len]
      ensures r.Err? ==> Output() == old(Output())
    {
      if lp > lits.len || len > lits.len - lp {
        return Err(CorruptLiterals);
      }
      if len > Limit() - op {
        return Err(CorruptSequences);
      }
      Put(op, lits.AsSlice()[lp..lp + len]);
      op := op + len;
      return Ok(op);
    }
  }

  lemma PrefixSlice(s: seq<byte>, n: nat, a: nat, b: nat)
    requires a <= b <= n <= |s|
    ensures s[..n][a..b] == s[a..b]
  {
  }

  /** A written match is the copied match, with the history in front. */
  lemma MatchFromHistory(history: seq<byte>, s: seq<byte>, out: seq<byte>, offset: nat, done: nat, ml: nat)
    requires |out| + ml <= |s| && s[..|out|] == out && done <= ml
    requires 0 < offset <= |history| + |out|
    requires done == if offset > |out| then Min(offset - |out|, ml) else 0
    requires done > 0 ==> s[|out|..|out| + done] == history[|history| + |out| - offset..|history| + |out| - offset + done]
    requires ml > done ==> offset <= |out| + done && Repeats(s, |out| + done, |out| + ml, offset)
    ensures s[..|out| + ml] == CopyMatch(history + out, offset, ml)[|history|..]
  {
    var h := |history|;
    var hs := history + s;
    assert hs[..h + |out|] == history + out;
    forall k | h + |out| <= k < h + |out| + ml ensures hs[k] == hs[k - offset] {
      var i := k - h;
      if i < |out| + done {
        assert s[i] == s[|out|..|out| + done][i - |out|];
        assert history[h + |out| - offset..h + |out| - offset + done][i - |out|] == history[k - offset];
      } else {
        assert s[i] == s[i - offset];
      }
    }
    RepeatsIsCopy(hs, history + out, offset, ml);
    assert hs[..h + |out| + ml][h..] == s[..|out| + ml];
  }

  lemma MatchInFrame(history: seq<byte>, s: seq<byte>, out: seq<byte>, offset: nat, ml: nat)
    requires |out| + ml <= |s| && s[..|out|] == out && 0 < offset <= |out|
    requires Repeats(s, |out|, |out| + ml, offset)
    ensures s[..|out| + ml] == CopyMatch(history + out, offset, ml)[|history|..]
  {
    MatchFromHistory(history, s, out, offset, 0, ml);
  }
}
