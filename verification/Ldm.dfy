/** Long-distance matching: matches found where a rolling hash stops, and the
    gaps between them searched by the level's own finder. */
module Ldm {
  import opened Arith
  import opened Wrappers
  import opened Sequences
  import opened MatchCount
  import opened MatchSearch
  import opened LevelSearch

  type Word64 = x: nat | x < 0x1_0000_0000_0000_0000

  /** A table entry: a position, or 0 for none, and the rest of its hash. */
  datatype Entry = Entry(offset: Pos, checksum: nat)

  datatype LdmParams = LdmParams(hashLog: nat, bucketSizeLog: nat, minMatch: nat, hashRateLog: nat)

  // ----- the rolling hash -----

  /** The hash after `n` bytes: each shifts it left and adds its gear value, in 64 bits. */
  function Rolled(r: Word64, gear: byte -> nat, data: seq<byte>, n: nat): Word64
    requires n <= |data|
  {
    if n == 0 then r else (2 * Rolled(r, gear, data, n - 1) + gear(data[n - 1])) % 0x1_0000_0000_0000_0000
  }

  /** The positions up to `n` after which it has none of the mask's bits. */
  function Stops(r: Word64, gear: byte -> nat, mask: nat, data: seq<byte>, n: nat): seq<nat>
    requires n <= |data|
  {
    if n == 0 then []
    else Stops(r, gear, mask, data, n - 1) + (if BitAnd(Rolled(r, gear, data, n), mask) == 0 then [n] else [])
  }

  class GearHash {
    var rolling: Word64
    const stopMask: nat

    constructor (p: LdmParams)
      ensures fresh(this) && rolling == 0xFFFF_FFFF
    {
      rolling := 0xFFFF_FFFF;
      var maxBits := Min(p.minMatch, 64);
      stopMask := if 0 < p.hashRateLog <= maxBits then Shl(Pow2(p.hashRateLog) - 1, maxBits - p.hashRateLog)
        else Pow2(p.hashRateLog) - 1;
    }

    method Feed1(gear: byte -> nat, b: byte)
      modifies this
      ensures rolling == (2 * old(rolling) + gear(b)) % 0x1_0000_0000_0000_0000
    {
      rolling := (2 * rolling + gear(b)) % 0x1_0000_0000_0000_0000;
    }

    method Reset(gear: byte -> nat, data: seq<byte>)
      modifies this
      ensures rolling == Rolled(old(rolling), gear, data, |data|)
    {
      for i := 0 to |data|
        invariant rolling == Rolled(old(rolling), gear, data, i)
      {
        Feed1(gear, data[i]);
      }
    }

    /** The positions after which the hash stops, in order, and how much was
        hashed: all of it, or up to a full batch. */
    method Feed(gear: byte -> nat, data: seq<byte>) returns (n: nat, splits: seq<nat>)
      modifies this
      ensures n <= |data| && (|data| > 0 ==> n > 0) && |splits| <= BATCH
      ensures forall i :: 0 <= i < |splits| ==> 0 < splits[i] <= n
      ensures rolling == Rolled(old(rolling), gear, data, n) && (n == |data| || |splits| == BATCH)
      ensures splits == Stops(old(rolling), gear, stopMask, data, n)
    {
      n, splits := 0, [];
      while n < |data|
        invariant n <= |data| && |splits| < BATCH && forall i :: 0 <= i < |splits| ==> 0 < splits[i] <= n
        invariant rolling == Rolled(old(rolling), gear, data, n) && splits == Stops(old(rolling), gear, stopMask, data, n)
      {
        Feed1(gear, data[n]);
        n := n + 1;
        if BitAnd(rolling, stopMask) == 0 {
          splits := splits + [n];
          if |splits| == BATCH {
            return;
          }
        }
      }
    }
  }

  const BATCH: nat := 64

  // ----- the table -----

  /** What matching needs from outside: the gear values and the 64-bit hash. */
  datatype Hashes = Hashes(gear: byte -> nat, xxh64: seq<byte> -> Word64)

  /** A long match, while the best is looked for. */
  datatype Best = Best(fwd: nat, back: nat, from: nat)

  /** Where a scan stands: what is found, and where the next match may begin. */
  datatype Scan = Scan(anchor: nat, raws: seq<Sequence>)

  ghost predicate Scanned(src: seq<byte>, start: nat, end: nat, window: nat, s: Scan) {
    s.anchor <= end <= |src| && Found(src, start, s.raws, s.anchor, window)
  }

  class LdmState {
    const params: LdmParams
    const hashes: Hashes
    const table: array<Entry>
    const bucketOffsets: array<nat>
    var entriesInserted: nat

    ghost predicate Valid()
      reads this, bucketOffsets
    {
      && params.bucketSizeLog <= params.hashLog && params.minMatch >= 4
      && table.Length == Pow2(params.hashLog) && bucketOffsets.Length == Pow2(params.hashLog - params.bucketSizeLog)
      && forall i :: 0 <= i < bucketOffsets.Length ==> bucketOffsets[i] < Pow2(params.bucketSizeLog)
    }

    constructor (p: LdmParams, h: Hashes)
      requires p.bucketSizeLog <= p.hashLog && p.minMatch >= 4
      ensures Valid() && fresh(this) && fresh(table) && fresh(bucketOffsets) && entriesInserted == 0
    {
      params, hashes, entriesInserted := p, h, 0;
      table := new Entry[Pow2(p.hashLog)](_ => Entry(0, 0));
      bucketOffsets := new nat[Pow2(p.hashLog - p.bucketSizeLog)](_ => 0);
    }

    /** A split's bucket and checksum. */
    function HashOf(data: seq<byte>): (r: (nat, nat))
      requires params.bucketSizeLog <= params.hashLog
      ensures r.0 < Pow2(params.hashLog - params.bucketSizeLog)
    {
      (Low(hashes.xxh64(data), params.hashLog - params.bucketSizeLog), hashes.xxh64(data) / 0x1_0000_0000)
    }

    lemma BucketInTable(hash: nat, i: nat)
      requires Valid() && hash < bucketOffsets.Length && i < Pow2(params.bucketSizeLog)
      ensures Shl(hash, params.bucketSizeLog) + i < table.Length
    {
      ShlBelow(hash, params.hashLog - params.bucketSizeLog, params.bucketSizeLog);
    }

    static lemma NextInBucket(offset: nat, size: nat)
      requires offset < size
      ensures (offset + 1) % size == if offset + 1 == size then 0 else offset + 1
    {
    }

    /** The bucket's oldest entry makes room. */
    method InsertEntry(hash: nat, e: Entry)
      requires Valid() && hash < bucketOffsets.Length
      modifies this`entriesInserted, table, bucketOffsets
      ensures Valid() && entriesInserted == old(entriesInserted) + 1
      ensures var at := Shl(hash, params.bucketSizeLog) + old(bucketOffsets[hash]);
        at < table.Length && table[..] == old(table[..])[at := e]
      ensures bucketOffsets[..]
        == old(bucketOffsets[..])[hash := (old(bucketOffsets[hash]) + 1) % Pow2(params.bucketSizeLog)]
    {
      NextInBucket(bucketOffsets[hash], Pow2(params.bucketSizeLog));
      var offset := bucketOffsets[hash];
      BucketInTable(hash, offset);
      table[Shl(hash, params.bucketSizeLog) + offset] := e;
      bucketOffsets[hash] := if offset + 1 == Pow2(params.bucketSizeLog) then 0 else offset + 1;
      entriesInserted := entriesInserted + 1;
    }

    ghost function EntryAt(hash: nat, i: nat): Entry
      requires Valid() && hash < bucketOffsets.Length && i < Pow2(params.bucketSizeLog)
      reads this, table, bucketOffsets
    {
      BucketInTable(hash, i);
      table[Shl(hash, params.bucketSizeLog) + i]
    }

    /** The bucket's entry `i` is of the same hash, and names a position in the window. */
    ghost predicate IsCandidate(hash: nat, checksum: nat, split: nat, window: nat, i: nat)
      requires Valid() && hash < bucketOffsets.Length
      reads this, table, bucketOffsets
    {
      i < Pow2(params.bucketSizeLog) &&
      (var e := EntryAt(hash, i);
       e.checksum == checksum && 0 < e.offset < split && split - e.offset <= window)
    }

    /** A long match at one of the bucket's candidates. */
    ghost predicate Offers(hash: nat, checksum: nat, src: seq<byte>, split: nat, anchor: nat, end: nat, window: nat,
                           i: nat, fwd: nat, back: nat)
      requires Valid() && hash < bucketOffsets.Length
      reads this, table, bucketOffsets
    {
      IsCandidate(hash, checksum, split, window, i) &&
      IsLong(src, split, anchor, end, window, Best(fwd, back, EntryAt(hash, i).offset))
    }

    lemma OffersNoMore(hash: nat, checksum: nat, src: seq<byte>, split: nat, anchor: nat, end: nat, window: nat,
                       i: nat, fwd: nat, back: nat)
      requires Valid() && hash < bucketOffsets.Length && i < Pow2(params.bucketSizeLog)
      requires forall f: nat :: SameFor(src, split, EntryAt(hash, i).offset, end, f) ==> f <= fwd
      requires forall b: nat :: SameBack(src, split, EntryAt(hash, i).offset, anchor, b) ==> b <= back
      ensures forall f: nat, b: nat :: Offers(hash, checksum, src, split, anchor, end, window, i, f, b) ==> f + b <= fwd + back
    {
      hide SameFor, SameBack, EntryAt;
    }

    lemma OffersNone(hash: nat, checksum: nat, src: seq<byte>, split: nat, anchor: nat, end: nat, window: nat,
                     i: nat, fwd: nat)
      requires Valid() && hash < bucketOffsets.Length && i < Pow2(params.bucketSizeLog) && fwd < params.minMatch
      requires forall f: nat :: SameFor(src, split, EntryAt(hash, i).offset, end, f) ==> f <= fwd
      ensures forall f: nat, b: nat :: !Offers(hash, checksum, src, split, anchor, end, window, i, f, b)
    {
      hide SameFor, SameBack, EntryAt;
    }

    lemma NoOffer(hash: nat, checksum: nat, src: seq<byte>, split: nat, anchor: nat, end: nat, window: nat, i: nat)
      requires Valid() && hash < bucketOffsets.Length && !IsCandidate(hash, checksum, split, window, i)
      ensures forall f: nat, b: nat :: !Offers(hash, checksum, src, split, anchor, end, window, i, f, b)
    {
      hide IsLong, IsCandidate;
    }

    lemma OffersInside(hash: nat, checksum: nat, src: seq<byte>, split: nat, anchor: nat, end: nat, window: nat)
      requires Valid() && hash < bucketOffsets.Length
      ensures forall i: nat, f: nat, b: nat :: Offers(hash, checksum, src, split, anchor, end, window, i, f, b) ==>
        i < Pow2(params.bucketSizeLog) && f > 0
    {
      hide SameFor, SameBack, EntryAt;
    }

    /** The longest verified match of a bucket: none of its candidates offers a longer one. */
    method BestOf(hash: nat, checksum: nat, src: seq<byte>, split: nat, anchor: nat, end: nat, window: nat) returns (best: Best)
      requires Valid() && hash < bucketOffsets.Length && window < 0x1_0000_0000
      requires anchor <= split <= end <= |src| && end < 0x1_0000_0000
      ensures best.fwd > 0 ==> IsLong(src, split, anchor, end, window, best)
      ensures forall i: nat, f: nat, b: nat :: Offers(hash, checksum, src, split, anchor, end, window, i, f, b) ==>
        0 < f + b <= best.fwd + best.back
      ensures best.fwd == 0 ==> best.back == 0
    {
      hide SameFor, SameBack, Shl, Offers, InWindow;
      best := Best(0, 0, 0);
      for i: nat := 0 to Pow2(params.bucketSizeLog)
        invariant forall j: nat, f: nat, b: nat :: j < i && Offers(hash, checksum, src, split, anchor, end, window, j, f, b) ==>
          f + b <= best.fwd + best.back
        invariant best.fwd > 0 ==> IsLong(src, split, anchor, end, window, best)
        invariant best.fwd == 0 ==> best.back == 0
      {
        BucketInTable(hash, i);
        var cur := table[Shl(hash, params.bucketSizeLog) + i];
        InWindowIs(split, cur.offset, window);
        if cur.checksum == checksum && cur.offset != 0 && InWindow(split, cur.offset, window) {
          var fwd := Forward(src, split, cur.offset, end);
          if fwd >= params.minMatch {
            var back := Backward(src, split, cur.offset, anchor);
            OffersNoMore(hash, checksum, src, split, anchor, end, window, i, fwd, back);
            if fwd + back > best.fwd + best.back {
              best := Best(fwd, back, cur.offset);
            }
          } else {
            OffersNone(hash, checksum, src, split, anchor, end, window, i, fwd);
          }
        } else {
          NoOffer(hash, checksum, src, split, anchor, end, window, i);
        }
      }
      OffersInside(hash, checksum, src, split, anchor, end, window);
    }

    ghost predicate IsLong(src: seq<byte>, split: nat, anchor: nat, end: nat, window: nat, b: Best)
      reads this
    {
      && b.from < split && split - b.from <= window && params.minMatch <= b.fwd
      && SameFor(src, split, b.from, end, b.fwd) && SameBack(src, split, b.from, anchor, b.back)
    }

    /** One more long match, of at least `n` bytes. */
    static predicate Longer(s0: Scan, s: Scan, n: nat) {
      |s.raws| == |s0.raws| + 1 && s.raws[|s0.raws|].matchLength >= n
    }

    /** One stop of the rolling hash: the position is entered, and, past the last
        match, the longest the bucket offers is taken. */
    method TakeSplit(src: seq<byte>, split: nat, start: nat, end: nat, window: nat, s0: Scan) returns (s: Scan)
      requires Valid() && window < 0x1_0000_0000 && split + params.minMatch <= end <= |src| && end < 0x1_0000_0000
      requires Scanned(src, start, end, window, s0)
      modifies this`entriesInserted, table, bucketOffsets
      ensures Valid() && Scanned(src, start, end, window, s) && s.anchor >= s0.anchor && s0.raws <= s.raws
      ensures var (hash, checksum) := HashOf(src[split..split + params.minMatch]);
        var at := Shl(hash, params.bucketSizeLog) + old(bucketOffsets[hash]);
        at < table.Length && table[..] == old(table[..])[at := Entry(split, checksum)]
      ensures split < s0.anchor ==> s == s0
      ensures var (hash, checksum) := HashOf(src[split..split + params.minMatch]);
        split >= s0.anchor ==>
        forall i: nat, f: nat, b: nat :: old(Offers(hash, checksum, src, split, s0.anchor, end, window, i, f, b)) ==>
          Longer(s0, s, f + b)
    {
      hide SameBytes, Found, Offers, Shl, Pow2;
      s := s0;
      var (hash, checksum) := HashOf(src[split..split + params.minMatch]);
      if split < s.anchor {
        InsertEntry(hash, Entry(split, checksum));
        return;
      }
      var best := BestOf(hash, checksum, src, split, s.anchor, end, window);
      forall i: nat, f: nat, b: nat | old(Offers(hash, checksum, src, split, s0.anchor, end, window, i, f, b))
        ensures 0 < f + b <= best.fwd + best.back
      {
        assert Offers(hash, checksum, src, split, s0.anchor, end, window, i, f, b);
      }
      InsertEntry(hash, Entry(split, checksum));
      if best.fwd == 0 {
        return;
      }
      EmitBack(src, start, s.raws, s.anchor, window, split, best.from, best.back, best.fwd);
      s := Scan(split + best.fwd,
                s.raws + [Sequence(split - best.back - s.anchor, best.fwd + best.back, split - best.from)]);
    }

    /** The long matches of `src[start..end]`: they do not overlap, end inside it
        and reach at most a window back. */
    method GenerateSequences(src: seq<byte>, start: nat, end: nat, window: nat) returns (s: Scan)
      requires Valid() && window < 0x1_0000_0000 && start <= end <= |src| && end < 0x1_0000_0000
      modifies this`entriesInserted, table, bucketOffsets
      ensures Valid() && Scanned(src, start, end, window, s)
    {
      hide Found;
      s := Scan(start, []);
      NothingFound(src, start, window);
      var minMatch := params.minMatch;
      if end - start < minMatch {
        return;
      }
      var gear := new GearHash(params);
      gear.Reset(hashes.gear, src[start..start + minMatch]);
      var ip: nat := start + minMatch;
      var limit := if end >= 8 then end - 8 else 0;
      while ip < limit
        invariant Valid() && fresh(gear) && Scanned(src, start, end, window, s) && start + minMatch <= ip
        decreases limit - ip
      {
        var hashed, splits := gear.Feed(hashes.gear, src[ip..limit]);
        var n := 0;
        var resetAnchor := false;
        while n < |splits| && !resetAnchor
          invariant Valid() && fresh(gear) && Scanned(src, start, end, window, s) && n <= |splits|
          invariant resetAnchor ==> s.anchor > ip + hashed
        {
          s := TakeSplit(src, ip + splits[n] - minMatch, start, end, window, s);
          resetAnchor := s.anchor > ip + hashed;
          n := n + 1;
        }
        if resetAnchor {
          gear := new GearHash(params);
          gear.Reset(hashes.gear, src[s.anchor - minMatch..s.anchor]);
          ip := s.anchor;
        } else {
          ip := ip + hashed;
        }
      }
    }

    /** Moves positions down. Entries that fall off, or land on 0, are none. */
    method ReducePositions(shift: Pos)
      requires Valid()
      modifies table
      ensures Valid()
      ensures forall i :: 0 <= i < table.Length ==> table[i] == ReducedEntry(old(table[i]), shift)
    {
      if shift == 0 {
        return;
      }
      for i := 0 to table.Length
        invariant Valid()
        invariant forall j :: 0 <= j < i ==> table[j] == ReducedEntry(old(table[j]), shift)
        invariant forall j :: i <= j < table.Length ==> table[j] == old(table[j])
      {
        var e := table[i];
        table[i] := if e.offset == 0 || e.offset < shift then Entry(0, 0) else e.(offset := e.offset - shift);
      }
    }

    /** Enters the stops of the first block, where nothing can match. */
    method FillOnly(src: seq<byte>, start: nat, end: nat)
      requires Valid() && start <= end <= |src| && end < 0x1_0000_0000
      modifies this`entriesInserted, table, bucketOffsets
      ensures Valid()
    {
      var minMatch := params.minMatch;
      if end - start < minMatch {
        return;
      }
      var gear := new GearHash(params);
      gear.Reset(hashes.gear, src[start..start + minMatch]);
      var ip: nat := start + minMatch;
      var limit := if end >= 8 then end - 8 else 0;
      while ip < limit
        invariant Valid() && fresh(gear) && start + minMatch <= ip
        decreases limit - ip
      {
        var hashed, splits := gear.Feed(hashes.gear, src[ip..limit]);
        for n := 0 to |splits|
          invariant Valid()
        {
          var split: nat := ip + splits[n] - minMatch;
          var (hash, checksum) := HashOf(src[split..split + minMatch]);
          InsertEntry(hash, Entry(split, checksum));
        }
        ip := ip + hashed;
      }
    }

    /** The sequences of the block `src[start..end]`: long matches, and between
        them what the level's finder finds. The literals a gap leaves go to the
        long match after it. */
    method CompressBlock(src: seq<byte>, start: nat, end: nat, window: nat, p: Level, rep0: nat, rep1: nat,
                         hashTable: array<Pos>, hashLong: array<Pos>)
      returns (seqs: seq<Sequence>)
      requires Valid() && window < 0x1_0000_0000 && start <= end <= |src| && end < 0x1_0000_0000
      requires 0 < rep0 < 0x1_0000_0000 && 0 < rep1 < 0x1_0000_0000 && Searchable(p, hashTable, hashLong, start)
      modifies this`entriesInserted, table, bucketOffsets, hashTable, hashLong
      ensures Valid() && Searchable(p, hashTable, hashLong, end)
      ensures Parses(src, start, seqs) && start + Span(seqs) <= end
      ensures AllGood(seqs, Max(Max(window, p.window), Max(rep0, rep1)))
    {
      hide Found, InTable;
      ghost var far := Max(Max(window, p.window), Max(rep0, rep1));
      if entriesInserted == 0 {
        FillOnly(src, start, end);
        seqs := SearchBlock(p, src, start, end, rep0, rep1, hashTable, hashLong);
        return;
      }
      var scan := GenerateSequences(src, start, end, window);
      if scan.raws == [] {
        seqs := SearchBlock(p, src, start, end, rep0, rep1, hashTable, hashLong);
        return;
      }
      FoundEnds(src, start, scan.raws, scan.anchor, window);
      seqs := Merge(scan.raws, src, start, end, p, rep0, rep1, hashTable, hashLong, window, far);
    }
  }

  lemma FoundEnds(src: seq<byte>, start: nat, seqs: seq<Sequence>, anchor: nat, far: nat)
    requires Found(src, start, seqs, anchor, far)
    ensures anchor == start + Span(seqs)
  {
  }

  // ----- merging -----

  /** What merging keeps: the sequences so far parse up to the cursor, and the
      long matches left parse on from there. */
  ghost predicate Merging(src: seq<byte>, start: nat, end: nat, seqs: seq<Sequence>, cursor: nat, left: seq<Sequence>, far: nat) {
    && Found(src, start, seqs, cursor, far) && Parses(src, cursor, left) && cursor + Span(left) <= end <= |src|
    && AllGood(left, far)
  }

  lemma MergingBegins(src: seq<byte>, start: nat, end: nat, raws: seq<Sequence>, anchor: nat, window: nat, far: nat)
    requires anchor <= end <= |src| && Found(src, start, raws, anchor, window) && window <= far && start <= end
    ensures Merging(src, start, end, [], start, raws, far)
  {
    NothingFound(src, start, far);
  }

  /** A gap's sequences and the long match after it. */
  lemma MergeStep(src: seq<byte>, start: nat, end: nat, seqs: seq<Sequence>, cursor: nat, left: seq<Sequence>, far: nat,
                  segment: seq<Sequence>)
    requires |left| > 0 && Merging(src, start, end, seqs, cursor, left, far) && AllGood(segment, far)
    requires Parses(src, cursor, segment) && Span(segment) <= left[0].literalLength
    ensures var raw := left[0];
      Merging(src, start, end, seqs + segment + [raw.(literalLength := raw.literalLength - Span(segment))],
              cursor + raw.Span(), left[1..], far)
  {
    var raw := left[0];
    var s := raw.(literalLength := raw.literalLength - Span(segment));
    hide Parses, Span, AllGood, Found, Matches;
    FoundParses(src, start, seqs, cursor, far);
    GoodStep(seqs, segment, raw, s, left, far);
    ParsesFirst(src, cursor, left);
    MergeParses(src, start, seqs, cursor, raw, segment);
    ParsesFound(src, start, seqs + segment + [s], far);
  }

  lemma MergeParses(src: seq<byte>, start: nat, seqs: seq<Sequence>, cursor: nat, raw: Sequence, segment: seq<Sequence>)
    requires Parses(src, start, seqs) && start + Span(seqs) == cursor <= |src| && Matches(src, cursor, raw)
    requires Parses(src, cursor, segment) && Span(segment) <= raw.literalLength
    ensures var all := seqs + segment + [raw.(literalLength := raw.literalLength - Span(segment))];
      Parses(src, start, all) && start + Span(all) == cursor + raw.Span() <= |src|
  {
    hide Parses, Span, Matches;
    var s := raw.(literalLength := raw.literalLength - Span(segment));
    ParsesInside(src, cursor, segment);
    ParsesConcat(src, start, seqs, segment);
    SpanConcat(seqs, segment);
    LaterMatch(src, cursor, raw, Span(segment));
    ParsesAppend(src, start, seqs + segment, s);
    ParsesInside(src, start, seqs + segment + [s]);
  }

  lemma FoundParses(src: seq<byte>, start: nat, seqs: seq<Sequence>, anchor: nat, far: nat)
    requires Found(src, start, seqs, anchor, far)
    ensures Parses(src, start, seqs) && start + Span(seqs) == anchor <= |src| && AllGood(seqs, far)
  {
    hide Parses, Span;
  }

  lemma ParsesFound(src: seq<byte>, start: nat, seqs: seq<Sequence>, far: nat)
    requires Parses(src, start, seqs) && AllGood(seqs, far) && start + Span(seqs) <= |src|
    ensures Found(src, start, seqs, start + Span(seqs), far)
  {
    hide Parses, Span;
  }

  lemma GoodStep(seqs: seq<Sequence>, segment: seq<Sequence>, raw: Sequence, s: Sequence, left: seq<Sequence>, far: nat)
    requires |left| > 0 && left[0] == raw && s.matchLength == raw.matchLength && s.offset == raw.offset
    requires AllGood(seqs, far) && AllGood(segment, far) && AllGood(left, far)
    ensures AllGood(seqs + segment + [s], far) && AllGood(left[1..], far)
  {
    assert GoodMatch(left[0], far);
  }

  lemma ParsesFirst(src: seq<byte>, at: nat, seqs: seq<Sequence>)
    requires |seqs| > 0 && Parses(src, at, seqs)
    ensures Matches(src, at, seqs[0]) && Parses(src, at + seqs[0].Span(), seqs[1..])
    ensures Span(seqs) == seqs[0].Span() + Span(seqs[1..])
  {
  }

  /** A match with some of its literals taken away. */
  lemma LaterMatch(src: seq<byte>, at: nat, s: Sequence, n: nat)
    requires Matches(src, at, s) && n <= s.literalLength
    ensures Matches(src, at + n, s.(literalLength := s.literalLength - n))
  {
  }

  /** The sequences after the last long match. */
  lemma MergeEnds(src: seq<byte>, start: nat, end: nat, seqs: seq<Sequence>, cursor: nat, far: nat, segment: seq<Sequence>)
    requires Merging(src, start, end, seqs, cursor, [], far) && AllGood(segment, far)
    requires Parses(src, cursor, segment) && cursor + Span(segment) <= end
    ensures Parses(src, start, seqs + segment) && start + Span(seqs + segment) <= end && AllGood(seqs + segment, far)
  {
    ParsesConcat(src, start, seqs, segment);
    SpanConcat(seqs, segment);
  }

  method Merge(raws: seq<Sequence>, src: seq<byte>, start: nat, end: nat, p: Level, rep0: nat, rep1: nat,
               hashTable: array<Pos>, hashLong: array<Pos>, ghost window: nat, ghost far: nat)
    returns (seqs: seq<Sequence>)
    requires start <= end <= |src| && end < 0x1_0000_0000 && far < 0x1_0000_0000 && window <= far && p.window <= far
    requires 0 < rep0 <= far && 0 < rep1 <= far && Searchable(p, hashTable, hashLong, start)
    requires Found(src, start, raws, start + Span(raws), window) && start + Span(raws) <= end
    modifies hashTable, hashLong
    ensures Searchable(p, hashTable, hashLong, end)
    ensures Parses(src, start, seqs) && start + Span(seqs) <= end && AllGood(seqs, far)
  {
    hide Found, Searchable, Merging, AllGood;
    MergingBegins(src, start, end, raws, start + Span(raws), window, far);
    seqs := [];
    var cursor: nat, r0: nat, r1: nat := start, rep0, rep1;
    ghost var left := raws;
    for i: nat := 0 to |raws|
      invariant left == raws[i..] && start <= cursor <= end && Merging(src, start, end, seqs, cursor, left, far)
      invariant 0 < r0 <= far && 0 < r1 <= far && Searchable(p, hashTable, hashLong, cursor)
    {
      var raw := raws[i];
      assert left[0] == raw;
      NextLong(src, start, end, seqs, cursor, left, far);
      var gapEnd := cursor + raw.literalLength;
      var segment: seq<Sequence> := [];
      if gapEnd > cursor {
        segment := SearchBlock(p, src, cursor, gapEnd, r0, r1, hashTable, hashLong);
        GoodFor(segment, Max(p.window, Max(r0, r1)), far);
        if |segment| > 0 {
          LastGood(segment, far);
          r0, r1 := segment[|segment| - 1].offset, r0;
        }
      } else {
        NoSegment(src, cursor, far);
      }
      MergeStep(src, start, end, seqs, cursor, left, far, segment);
      SearchableLater(p, hashTable, hashLong, gapEnd, cursor + raw.Span());
      seqs := seqs + segment + [Sequence(raw.literalLength - Span(segment), raw.matchLength, raw.offset)];
      r0, r1 := raw.offset, r0;
      cursor := cursor + raw.Span();
      left := left[1..];
    }
    var segment: seq<Sequence> := [];
    if cursor < end {
      segment := SearchBlock(p, src, cursor, end, r0, r1, hashTable, hashLong);
      GoodFor(segment, Max(p.window, Max(r0, r1)), far);
    } else {
      NoSegment(src, cursor, far);
    }
    MergeEnds(src, start, end, seqs, cursor, far, segment);
    seqs := seqs + segment;
  }

  lemma NextLong(src: seq<byte>, start: nat, end: nat, seqs: seq<Sequence>, cursor: nat, left: seq<Sequence>, far: nat)
    requires |left| > 0 && Merging(src, start, end, seqs, cursor, left, far)
    ensures cursor + left[0].Span() <= end && 0 < left[0].offset <= far
  {
    assert GoodMatch(left[0], far);
  }

  lemma NoSegment(src: seq<byte>, cursor: nat, far: nat)
    requires cursor <= |src|
    ensures Parses(src, cursor, []) && Span([]) == 0 && AllGood([], far)
  {
  }

  lemma GoodFor(seqs: seq<Sequence>, near: nat, far: nat)
    requires AllGood(seqs, near) && near <= far
    ensures AllGood(seqs, far)
  {
    forall i | 0 <= i < |seqs| ensures GoodMatch(seqs[i], far) {
      assert GoodMatch(seqs[i], near);
    }
  }

  lemma LastGood(seqs: seq<Sequence>, far: nat)
    requires |seqs| > 0 && AllGood(seqs, far)
    ensures 0 < seqs[|seqs| - 1].offset <= far
  {
    assert GoodMatch(seqs[|seqs| - 1], far);
  }

  // ----- candidates -----

  function ReducedEntry(e: Entry, shift: Pos): Entry {
    if shift == 0 then e else if e.offset < shift then Entry(0, 0) else e.(offset := e.offset - shift)
  }

  /** The finders' distance test. */
  predicate InWindow(ip: Pos, idx: Pos, maxDistance: nat) {
    WrapSub64(WrapSub64(ip, idx), 1) < maxDistance
  }

  lemma InWindowIs(ip: nat, idx: nat, maxDistance: nat)
    requires ip < 0x1_0000_0000 && idx < 0x1_0000_0000 && maxDistance < 0x1_0000_0000
    ensures InWindow(ip, idx, maxDistance) <==> idx < ip && ip - idx <= maxDistance
  {
  }

  /** The bytes from the two positions on agree for `n` bytes, within the block. */
  ghost predicate SameFor(src: seq<byte>, split: nat, from: nat, end: nat, n: nat) {
    split + n <= end && SameBytes(src, split, from, n)
  }

  /** The bytes before the two positions agree for `n` bytes, at most back to the anchor. */
  ghost predicate SameBack(src: seq<byte>, split: nat, from: nat, anchor: nat, n: nat) {
    n <= from && anchor + n <= split && SameBytes(src, split - n, from - n, n)
  }

  method Forward(src: seq<byte>, split: nat, from: nat, end: nat) returns (fwd: nat)
    requires from < split <= end <= |src|
    ensures SameFor(src, split, from, end, fwd)
    ensures forall f: nat :: SameFor(src, split, from, end, f) ==> f <= fwd
  {
    hide SameBytes;
    var most := Min(end - split, |src| - from);
    fwd := 0;
    Nothing(src, split, from);
    while fwd < most && src[split + fwd] == src[from + fwd]
      invariant fwd <= most && SameBytes(src, split, from, fwd)
    {
      OneSame(src, split + fwd, from + fwd);
      SameConcat(src, split, from, fwd, 1);
      fwd := fwd + 1;
    }
    forall f: nat | SameFor(src, split, from, end, f) ensures f <= fwd {
      SameIn(src, split, from, f);
      if f > fwd { SameAt(src, split, from, f, fwd); }
    }
  }

  method Backward(src: seq<byte>, split: nat, from: nat, anchor: nat) returns (back: nat)
    requires from < split <= |src| && anchor <= split
    ensures SameBack(src, split, from, anchor, back)
    ensures forall b: nat :: SameBack(src, split, from, anchor, b) ==> b <= back
  {
    hide SameBytes;
    back := 0;
    Nothing(src, split, from);
    while split > anchor + back && from > back && src[split - back - 1] == src[from - back - 1]
      invariant back <= from && anchor + back <= split && SameBytes(src, split - back, from - back, back)
    {
      OneBack(src, split, from, back);
      back := back + 1;
    }
    forall b: nat | SameBack(src, split, from, anchor, b) ensures b <= back {
      if b > back { SameAt(src, split - b, from - b, b, b - back - 1); }
    }
  }

  lemma SameIn(src: seq<byte>, a: nat, b: nat, n: nat)
    requires SameBytes(src, a, b, n)
    ensures a + n <= |src| && b + n <= |src|
  {
  }
}
