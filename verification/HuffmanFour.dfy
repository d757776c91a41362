/** Four-stream Huffman literals (section 3.1.1.3.1.6 of RFC 8878): rounds that
    interleave the four streams, by one symbol a row or two, against each stream
    decoded alone. */
module HuffmanFour {
  import opened Arith
  import opened Bits
  import opened Wrappers
  import opened Huffman
  import opened HuffmanStream

  // ----- the specification -----

  /** The streams' bytes, from the jump table in front of them. */
  datatype Split4 = Split4(s1: seq<byte>, s2: seq<byte>, s3: seq<byte>, s4: seq<byte>)

  function Word16(lo: nat, hi: nat): nat {
    lo + 256 * hi
  }

  function SplitStreams(data: seq<byte>): Option<Split4> {
    if |data| < 6 then None
    else
      var a2: nat := 6 + Word16(data[0], data[1]);
      var a3: nat := a2 + Word16(data[2], data[3]);
      var a4: nat := a3 + Word16(data[4], data[5]);
      Cut(data, a2, a3, a4)
  }

  function Cut(data: seq<byte>, a2: nat, a3: nat, a4: nat): Option<Split4>
    requires 6 <= a2 <= a3 <= a4
  {
    if a4 > |data| then None
    else Some(Split4(data[6..a2], data[a2..a3], data[a3..a4], data[a4..]))
  }

  /** Symbols of each of the first three streams. */
  function Segment(n: nat): nat {
    (n + 3) / 4
  }

  /** `n` symbols: the four streams, each decoded alone, one after the other. */
  function FourSymbols(t: HufTable, data: seq<byte>, n: nat): Option<seq<byte>>
    requires t.Valid()
  {
    var split := SplitStreams(data);
    if split.None? || 3 * Segment(n) >= n then None
    else
      var s := split.value;
      match StreamSymbols(t, s.s1, Segment(n)) case None => None case Some(o1) =>
      match StreamSymbols(t, s.s2, Segment(n)) case None => None case Some(o2) =>
      match StreamSymbols(t, s.s3, Segment(n)) case None => None case Some(o3) =>
      match StreamSymbols(t, s.s4, n - 3 * Segment(n)) case None => None case Some(o4) =>
      Some(o1 + o2 + o3 + o4)
  }

  /** Four streams of symbols, the first three of `seg` each, one after the other. */
  predicate InTurn(r: Option<seq<byte>>, t: HufTable, s1: seq<byte>, s2: seq<byte>, s3: seq<byte>, s4: seq<byte>, n: nat, seg: nat)
    requires t.Valid() && 3 * seg < n
  {
    var o1, o2, o3 := StreamSymbols(t, s1, seg), StreamSymbols(t, s2, seg), StreamSymbols(t, s3, seg);
    var o4 := StreamSymbols(t, s4, n - 3 * seg);
    r == if o1.None? || o2.None? || o3.None? || o4.None? then None else Some(o1.value + o2.value + o3.value + o4.value)
  }

  /** What four streams decode to: behind the sizes of the first three stand their
      bytes, and all but the last decode to `seg` symbols. */
  predicate Partitioned(r: Option<seq<byte>>, t: HufTable, data: seq<byte>, n: nat, seg: nat)
    requires t.Valid()
  {
    if |data| < 6 || 3 * seg >= n then r.None?
    else
      var a2: nat := 6 + data[0] as nat + 256 * data[1] as nat;
      var a3: nat := a2 + data[2] as nat + 256 * data[3] as nat;
      var a4: nat := a3 + data[4] as nat + 256 * data[5] as nat;
      if a4 > |data| then r.None? else InTurn(r, t, data[6..a2], data[a2..a3], data[a3..a4], data[a4..], n, seg)
  }

  lemma FourOfSplit(t: HufTable, data: seq<byte>, n: nat)
    requires t.Valid() && SplitStreams(data).Some? && 3 * Segment(n) < n
    ensures var s := SplitStreams(data).value; InTurn(FourSymbols(t, data, n), t, s.s1, s.s2, s.s3, s.s4, n, Segment(n))
  {
    hide StreamSymbols, Segment, SplitStreams;
  }

  /** The first three decode to a fourth of the symbols each, rounded up. */
  lemma FourPartitioned(t: HufTable, data: seq<byte>, n: nat, seg: nat)
    requires t.Valid() && 4 * seg >= n > 4 * (seg - 1)
    ensures Partitioned(FourSymbols(t, data, n), t, data, n, seg)
  {
    SegmentIs(n, seg);
    hide *;
    if |data| < 6 || 3 * seg >= n {
      ShortSplit(data);
      NoSplit(t, data, n);
      NotPartitioned(t, data, n, seg);
    } else {
      var a2: nat := 6 + data[0] as nat + 256 * data[1] as nat;
      var a3: nat := a2 + data[2] as nat + 256 * data[3] as nat;
      var a4: nat := a3 + data[4] as nat + 256 * data[5] as nat;
      SplitIs(data, a2, a3, a4);
      if a4 <= |data| { FourOfSplit(t, data, n); } else { NoSplit(t, data, n); }
      PartitionedIs(FourSymbols(t, data, n), t, data, n, seg, a2, a3, a4);
    }
  }

  lemma NotPartitioned(t: HufTable, data: seq<byte>, n: nat, seg: nat)
    requires t.Valid() && (|data| < 6 || 3 * seg >= n)
    ensures Partitioned(None, t, data, n, seg)
  {
  }

  lemma PartitionedIs(r: Option<seq<byte>>, t: HufTable, data: seq<byte>, n: nat, seg: nat, a2: nat, a3: nat, a4: nat)
    requires t.Valid() && 3 * seg < n && |data| >= 6 && a2 == 6 + data[0] as nat + 256 * data[1] as nat
    requires a3 == a2 + data[2] as nat + 256 * data[3] as nat && a4 == a3 + data[4] as nat + 256 * data[5] as nat
    requires if a4 > |data| then r.None? else InTurn(r, t, data[6..a2], data[a2..a3], data[a3..a4], data[a4..], n, seg)
    ensures Partitioned(r, t, data, n, seg)
  {
    hide InTurn, HufTable.Valid;
  }

  lemma SplitIs(data: seq<byte>, a2: nat, a3: nat, a4: nat)
    requires |data| >= 6 && a2 == 6 + data[0] as nat + 256 * data[1] as nat
    requires a3 == a2 + data[2] as nat + 256 * data[3] as nat && a4 == a3 + data[4] as nat + 256 * data[5] as nat
    ensures SplitStreams(data) == if a4 > |data| then None
      else Some(Split4(data[6..a2], data[a2..a3], data[a3..a4], data[a4..]))
  {
    hide SplitStreams;
    CutAt(data, a2, a3, a4);
  }

  lemma CutAt(data: seq<byte>, a2: nat, a3: nat, a4: nat)
    requires |data| >= 6 && a2 == 6 + data[0] as nat + 256 * data[1] as nat
    requires a3 == a2 + data[2] as nat + 256 * data[3] as nat && a4 == a3 + data[4] as nat + 256 * data[5] as nat
    ensures SplitStreams(data) == Cut(data, a2, a3, a4)
  {
    hide Cut;
  }

  lemma ShortSplit(data: seq<byte>)
    ensures |data| < 6 ==> SplitStreams(data).None?
  {
  }

  lemma NoSplit(t: HufTable, data: seq<byte>, n: nat)
    requires t.Valid() && (SplitStreams(data).None? || 3 * Segment(n) >= n)
    ensures FourSymbols(t, data, n).None?
  {
  }

  lemma SegmentIs(n: nat, seg: nat)
    requires 4 * seg >= n > 4 * (seg - 1)
    ensures Segment(n) == seg
  {
  }

  // ----- the rounds -----

  /** Four streams that share nothing they change. */
  ghost predicate Apart(a: HufStream, b: HufStream, c: HufStream, d: HufStream)
  {
    && a != b && a != c && a != d && b != c && b != d && c != d
    && a.out != b.out && a.out != c.out && a.out != d.out && b.out != c.out && b.out != d.out && c.out != d.out
  }

  function Min4(a: nat, b: nat, c: nat, d: nat): (m: nat)
    ensures m <= a && m <= b && m <= c && m <= d
  {
    Min(Min(a, b), Min(c, d))
  }

  /** Rounds that all four streams can run without further checks. */
  function CommonRounds(a: HufStream, b: HufStream, c: HufStream, d: HufStream, window: nat): (r: nat)
    requires window == ROUND || window == PAIR_WINDOW
    requires a.at <= a.out.Length && b.at <= b.out.Length && c.at <= c.out.Length && d.at <= d.out.Length
    reads a, b, c, d
    ensures a.Room(r, window) && b.Room(r, window) && c.Room(r, window) && d.Room(r, window)
  {
    Min4(a.Rounds(window), b.Rounds(window), c.Rounds(window), d.Rounds(window))
  }

  method EnterAll(a: HufStream, b: HufStream, c: HufStream, d: HufStream, window: nat, rounds: nat)
    requires Apart(a, b, c, d) && (window == ROUND || window == PAIR_WINDOW) && rounds > 0
    requires a.Startable() && b.Startable() && c.Startable() && d.Startable()
    requires a.Room(rounds, window) && b.Room(rounds, window) && c.Room(rounds, window) && d.Room(rounds, window)
    modifies a, b, c, d
    ensures a.Fast() && b.Fast() && c.Fast() && d.Fast()
    ensures a.Room(rounds, window) && b.Room(rounds, window) && c.Room(rounds, window) && d.Room(rounds, window)
  {
    hide HufStream.Fast, HufStream.Startable;
    a.Enter();
    b.Enter();
    c.Enter();
    d.Enter();
  }

  method UnloadAll(a: HufStream, b: HufStream, c: HufStream, d: HufStream)
    requires Apart(a, b, c, d) && a.Fast() && b.Fast() && c.Fast() && d.Fast()
    modifies a, b, c, d
    ensures a.Startable() && b.Startable() && c.Startable() && d.Startable()
  {
    hide HufStream.Fast, HufStream.Startable;
    a.Unload();
    b.Unload();
    c.Unload();
    d.Unload();
  }

  /** Five symbols of each stream. */
  method RoundOfFive(a: HufStream, b: HufStream, c: HufStream, d: HufStream, rounds: nat)
    requires Apart(a, b, c, d) && rounds > 0 && a.Fast() && b.Fast() && c.Fast() && d.Fast()
    requires a.Room(rounds, ROUND) && b.Room(rounds, ROUND) && c.Room(rounds, ROUND) && d.Room(rounds, ROUND)
    modifies a, b, c, d, a.out, b.out, c.out, d.out
    ensures a.Fast() && b.Fast() && c.Fast() && d.Fast() && a.at > old(a.at)
    ensures a.Room(rounds - 1, ROUND) && b.Room(rounds - 1, ROUND) && c.Room(rounds - 1, ROUND) && d.Room(rounds - 1, ROUND)
  {
    hide HufStream.Fast, HufStream.Startable;
    a.Reload();
    b.Reload();
    c.Reload();
    d.Reload();
    a.DecodeFive();
    b.DecodeFive();
    c.DecodeFive();
    d.DecodeFive();
  }

  /** Four rows of each stream. */
  method RoundOfPairs(a: HufStream, b: HufStream, c: HufStream, d: HufStream, pairs: seq<PairRow>, rounds: nat)
    requires Apart(a, b, c, d) && rounds > 0 && a.Fast() && b.Fast() && c.Fast() && d.Fast()
    requires a.table == b.table == c.table == d.table && PrefixConsistent(a.table) && PairsOf(pairs, a.table)
    requires a.Room(rounds, PAIR_WINDOW) && b.Room(rounds, PAIR_WINDOW) && c.Room(rounds, PAIR_WINDOW) && d.Room(rounds, PAIR_WINDOW)
    modifies a, b, c, d, a.out, b.out, c.out, d.out
    ensures a.Fast() && b.Fast() && c.Fast() && d.Fast() && a.at > old(a.at)
    ensures a.Room(rounds - 1, PAIR_WINDOW) && b.Room(rounds - 1, PAIR_WINDOW)
    ensures c.Room(rounds - 1, PAIR_WINDOW) && d.Room(rounds - 1, PAIR_WINDOW)
  {
    hide HufStream.Fast, HufStream.Startable;
    a.Reload();
    a.DecodePairs(pairs);
    b.Reload();
    b.DecodePairs(pairs);
    c.Reload();
    c.DecodePairs(pairs);
    d.Reload();
    d.DecodePairs(pairs);
  }

  lemma InRange(a: HufStream, b: HufStream, c: HufStream, d: HufStream)
    requires a.Fast() && b.Fast() && c.Fast() && d.Fast()
    ensures a.at <= a.out.Length && b.at <= b.out.Length && c.at <= c.out.Length && d.at <= d.out.Length
  {
  }

  /** Some rounds of five. */
  method FiveBatch(a: HufStream, b: HufStream, c: HufStream, d: HufStream, rounds: nat)
    requires Apart(a, b, c, d) && rounds > 0 && a.Fast() && b.Fast() && c.Fast() && d.Fast()
    requires a.Room(rounds, ROUND) && b.Room(rounds, ROUND) && c.Room(rounds, ROUND) && d.Room(rounds, ROUND)
    modifies a, b, c, d, a.out, b.out, c.out, d.out
    ensures a.Fast() && b.Fast() && c.Fast() && d.Fast() && a.at > old(a.at)
    ensures a.at <= a.out.Length && b.at <= b.out.Length && c.at <= c.out.Length && d.at <= d.out.Length
  {
    hide HufStream.Fast, PairsOf, PrefixConsistent;
    var left := rounds;
    while left > 0
      invariant a.Fast() && b.Fast() && c.Fast() && d.Fast()
      invariant if left < rounds then a.at > old(a.at) else a.at == old(a.at)
      invariant a.Room(left, ROUND) && b.Room(left, ROUND) && c.Room(left, ROUND) && d.Room(left, ROUND)
    {
      RoundOfFive(a, b, c, d, left);
      left := left - 1;
    }
    InRange(a, b, c, d);
  }

  /** Rounds of five while every stream has room for them. */
  method RoundsOfFive(a: HufStream, b: HufStream, c: HufStream, d: HufStream)
    requires Apart(a, b, c, d) && a.Startable() && b.Startable() && c.Startable() && d.Startable()
    modifies a, b, c, d, a.out, b.out, c.out, d.out
    ensures a.Startable() && b.Startable() && c.Startable() && d.Startable()
  {
    var rounds := CommonRounds(a, b, c, d, ROUND);
    hide HufStream.Fast, HufStream.Startable, CommonRounds;
    if rounds > 0 {
      EnterAll(a, b, c, d, ROUND, rounds);
      while rounds > 0
        invariant a.Fast() && b.Fast() && c.Fast() && d.Fast()
        invariant a.Room(rounds, ROUND) && b.Room(rounds, ROUND) && c.Room(rounds, ROUND) && d.Room(rounds, ROUND)
        decreases a.out.Length - a.at
      {
        FiveBatch(a, b, c, d, rounds);
        rounds := CommonRounds(a, b, c, d, ROUND);
      }
      UnloadAll(a, b, c, d);
    }
  }

  /** Some rounds of two-symbol rows. */
  method PairBatch(a: HufStream, b: HufStream, c: HufStream, d: HufStream, pairs: seq<PairRow>, rounds: nat)
    requires Apart(a, b, c, d) && rounds > 0 && a.Fast() && b.Fast() && c.Fast() && d.Fast()
    requires a.table == b.table == c.table == d.table && PrefixConsistent(a.table) && PairsOf(pairs, a.table)
    requires a.Room(rounds, PAIR_WINDOW) && b.Room(rounds, PAIR_WINDOW) && c.Room(rounds, PAIR_WINDOW) && d.Room(rounds, PAIR_WINDOW)
    modifies a, b, c, d, a.out, b.out, c.out, d.out
    ensures a.Fast() && b.Fast() && c.Fast() && d.Fast() && a.at > old(a.at)
    ensures a.at <= a.out.Length && b.at <= b.out.Length && c.at <= c.out.Length && d.at <= d.out.Length
  {
    hide HufStream.Fast, PairsOf, PrefixConsistent;
    var left := rounds;
    while left > 0
      invariant a.Fast() && b.Fast() && c.Fast() && d.Fast()
      invariant if left < rounds then a.at > old(a.at) else a.at == old(a.at)
      invariant a.Room(left, PAIR_WINDOW) && b.Room(left, PAIR_WINDOW) && c.Room(left, PAIR_WINDOW) && d.Room(left, PAIR_WINDOW)
    {
      RoundOfPairs(a, b, c, d, pairs, left);
      left := left - 1;
    }
    InRange(a, b, c, d);
  }

  /** Rounds of two-symbol rows while every stream has room for them. */
  method RoundsOfPairs(a: HufStream, b: HufStream, c: HufStream, d: HufStream, pairs: seq<PairRow>)
    requires Apart(a, b, c, d) && a.Startable() && b.Startable() && c.Startable() && d.Startable()
    requires a.table == b.table == c.table == d.table && PrefixConsistent(a.table) && PairsOf(pairs, a.table)
    modifies a, b, c, d, a.out, b.out, c.out, d.out
    ensures a.Startable() && b.Startable() && c.Startable() && d.Startable()
  {
    var rounds := CommonRounds(a, b, c, d, PAIR_WINDOW);
    hide HufStream.Fast, HufStream.Startable, CommonRounds, PairsOf, PrefixConsistent;
    if rounds > 0 {
      EnterAll(a, b, c, d, PAIR_WINDOW, rounds);
      while rounds > 0
        invariant a.Fast() && b.Fast() && c.Fast() && d.Fast()
        invariant a.Room(rounds, PAIR_WINDOW) && b.Room(rounds, PAIR_WINDOW)
        invariant c.Room(rounds, PAIR_WINDOW) && d.Room(rounds, PAIR_WINDOW)
        decreases a.out.Length - a.at
      {
        PairBatch(a, b, c, d, pairs, rounds);
        rounds := CommonRounds(a, b, c, d, PAIR_WINDOW);
      }
      UnloadAll(a, b, c, d);
    }
  }

  /** What each stream still has after the common rounds. */
  method FinishAll(a: HufStream, b: HufStream, c: HufStream, d: HufStream) returns (ok: bool)
    requires Apart(a, b, c, d) && a.Startable() && b.Startable() && c.Startable() && d.Startable()
    modifies a, b, c, d, a.out, b.out, c.out, d.out
    ensures ok <==> a.whole.Some? && b.whole.Some? && c.whole.Some? && d.whole.Some?
    ensures ok ==> a.out[..] == a.whole.value && b.out[..] == b.whole.value
    ensures ok ==> c.out[..] == c.whole.value && d.out[..] == d.whole.value
  {
    hide HufStream.Valid;
    a.FinishFast();
    b.FinishFast();
    c.FinishFast();
    d.FinishFast();
    ok := a.Tail();
    if !ok {
      return;
    }
    ok := b.Tail();
    if !ok {
      return;
    }
    ok := c.Tail();
    if !ok {
      return;
    }
    ok := d.Tail();
  }

  /** The four-stream decoder, with single rows or with two-symbol rows first: it
      accepts exactly when each stream decodes alone, and gives their symbols one
      after the other. */
  method DecodeFourStreams(t: HufTable, pairs: Option<seq<PairRow>>, data: seq<byte>, n: nat) returns (r: Option<seq<byte>>)
    requires t.Valid() && (pairs.Some? ==> PrefixConsistent(t) && PairsOf(pairs.value, t))
    ensures r == FourSymbols(t, data, n)
  {
    hide HufStream.Startable, StreamSymbols, PairsOf, PrefixConsistent;
    var split := SplitStreams(data);
    if split.None? {
      return None;
    }
    var seg := Segment(n);
    if seg * 3 >= n {
      return None;
    }
    var s := split.value;
    if !Marked(s.s1) || !Marked(s.s2) || !Marked(s.s3) || !Marked(s.s4) {
      Unmarked(t, s, n);
      return None;
    }
    var o1, o2, o3, o4 := new byte[seg], new byte[seg], new byte[seg], new byte[n - seg * 3];
    var a := new HufStream(t, s.s1, o1);
    var b := new HufStream(t, s.s2, o2);
    var c := new HufStream(t, s.s3, o3);
    var d := new HufStream(t, s.s4, o4);
    if pairs.Some? {
      RoundsOfPairs(a, b, c, d, pairs.value);
    }
    RoundsOfFive(a, b, c, d);
    var ok := FinishAll(a, b, c, d);
    return if ok then Some(o1[..] + o2[..] + o3[..] + o4[..]) else None;
  }

  lemma Unmarked(t: HufTable, s: Split4, n: nat)
    requires t.Valid() && !(Marked(s.s1) && Marked(s.s2) && Marked(s.s3) && Marked(s.s4)) && 3 * Segment(n) < n
    ensures StreamSymbols(t, s.s1, Segment(n)).None? || StreamSymbols(t, s.s2, Segment(n)).None?
      || StreamSymbols(t, s.s3, Segment(n)).None? || StreamSymbols(t, s.s4, n - 3 * Segment(n)).None?
  {
  }

  /** A section of one stream. */
  method DecodeSingleStream(t: HufTable, data: seq<byte>, n: nat) returns (r: Option<seq<byte>>)
    requires t.Valid()
    ensures r == StreamSymbols(t, data, n)
  {
    hide Symbols;
    if !Marked(data) {
      return None;
    }
    var out := new byte[n];
    var s := new HufStream(t, data, out);
    var ok := s.Tail();
    return if ok then Some(out[..]) else None;
  }
}
