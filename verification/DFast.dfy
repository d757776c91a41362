/** The DFast match finder: a table of eight-byte words and a table of shorter
    ones, a repeat offset tried one byte ahead. Candidates are not checked to be
    behind the cursor, so soundness rests on every entry being below it. */
module DFast {
  import opened Arith
  import opened Wrappers
  import opened Sequences
  import opened MatchCount
  import opened MatchSearch

  /** A block's search: `src` up to the block's end, from where, and the sizes. */
  datatype Search = Search(src: seq<byte>, start: nat, window: nat, stepIncr: nat, long: Hash, short: Hash) {
    function Limit(): nat
      requires |src| >= 8
    {
      |src| - 8
    }

    /** The window's start for the block's end. */
    function Low(): nat {
      if |src| >= window then |src| - window else 0
    }
  }

  /** Where the search stands. */
  datatype Cursor = Cursor(ip: nat, anchor: nat, rep0: nat, rep1: nat, seqs: seq<Sequence>)

  ghost predicate Ready(sc: Search, hashLong: array<Pos>, hashShort: array<Pos>, far: nat) {
    && sc.start + 16 <= |sc.src| < 0x1_0000_0000 && sc.window >= 1 && sc.stepIncr >= 1 && sc.window <= far < 0x1_0000_0000
    && InTable(sc.long, hashLong.Length) && InTable(sc.short, hashShort.Length) && hashLong != hashShort
  }

  ghost predicate At(sc: Search, c: Cursor, far: nat) {
    && sc.start <= c.anchor <= c.ip <= |sc.src| && 0 < c.rep0 <= far && 0 < c.rep1 <= far
    && Found(sc.src, sc.start, c.seqs, c.anchor, far)
  }

  /** A candidate's first bytes, read at a clamped position, if it is in the window. */
  function Confirmed(sc: Search, m: nat, n: nat, v: seq<byte>): bool
    requires |sc.src| >= 8 && n <= 8
  {
    m >= sc.Low() && Word(sc.src, Min(m, sc.Limit()), n) == v
  }

  /** A repeat `rep` back from `p`, read at a clamped position. */
  function RepeatsAt(sc: Search, p: nat, rep: nat, v: seq<byte>): bool
    requires |sc.src| >= 8 && rep < 0x1_0000_0000
  {
    p >= rep && Word(sc.src, Min(WrapSub64(p, rep), sc.Limit()), 4) == v
  }

  datatype Candidate = Candidate(at: nat, from: nat, length: nat)

  ghost predicate IsMatch(sc: Search, c: Candidate) {
    sc.Low() <= c.from < c.at && c.length >= 4 && SameBytes(sc.src, c.at, c.from, c.length)
  }

  /** A table's candidate is in the window of the block's end and its first `n` bytes are
      those at the cursor. */
  predicate Hits(sc: Search, at: nat, from: nat, n: nat)
    requires at + n <= |sc.src| && from <= at
  {
    from + sc.window >= |sc.src| && sc.src[from..from + n] == sc.src[at..at + n]
  }

  lemma ConfirmedHits(sc: Search, at: nat, from: nat, n: nat)
    requires |sc.src| >= 8 && n <= 8 && at <= sc.Limit() && from <= at
    ensures Confirmed(sc, from, n, Word(sc.src, at, n)) <==> Hits(sc, at, from, n)
  {
  }

  /** The match goes as far as the bytes are equal. */
  predicate Longest(sc: Search, c: Candidate)
    requires c.from <= c.at && c.at + c.length <= |sc.src|
  {
    c.at + c.length == |sc.src| || sc.src[c.at + c.length] != sc.src[c.from + c.length]
  }

  /** All of a match: it neither ends early nor goes on. */
  ghost predicate Whole(sc: Search, c: Candidate) {
    IsMatch(sc, c) && c.at + c.length <= |sc.src| && Longest(sc, c)
  }

  /** A confirmed candidate, extended forward. */
  method Extend(sc: Search, at: nat, from: nat, n: nat) returns (length: nat)
    requires |sc.src| >= 8 && 4 <= n <= 8 && at <= sc.Limit() && from < at
    requires Confirmed(sc, from, n, Word(sc.src, at, n))
    ensures n <= length && IsMatch(sc, Candidate(at, from, length))
    ensures at + length <= |sc.src| && Longest(sc, Candidate(at, from, length))
  {
    hide SameBytes;
    var more := CountMatch(sc.src, at + n, from + n, |sc.src|);
    WordThen(sc.src, at, from, n, more);
    length := more + n;
  }

  /** A long match at `ip`, else a short one, else with the short one a longer
      long match at `ip1`. It finds one exactly when a candidate at `ip` hits. */
  method FindMatch(sc: Search, ip: nat, ip1: nat, idxl0: nat, idxs0: nat, idxl1: nat) returns (r: Option<Candidate>)
    requires |sc.src| >= 8 && ip < ip1 <= sc.Limit() && idxl0 < ip && idxs0 < ip && idxl1 < ip1
    ensures r.Some? ==> IsMatch(sc, r.value) && (r.value.at == ip || r.value.at == ip1)
    ensures r.Some? <==> Hits(sc, ip, idxl0, 8) || Hits(sc, ip, idxs0, 4)
    ensures r.Some? ==> r.value.from < r.value.at && r.value.at + r.value.length <= |sc.src| && Longest(sc, r.value)
    ensures Hits(sc, ip, idxl0, 8) ==> r.value.at == ip && r.value.from == idxl0
    ensures r.Some? && !Hits(sc, ip, idxl0, 8) ==>
      (r.value.at == ip && r.value.from == idxs0) || (r.value.at == ip1 && r.value.from == idxl1 && Hits(sc, ip1, idxl1, 8))
    ensures r.Some? && r.value.at == ip1 ==> exists ml: nat :: ml < r.value.length && Whole(sc, Candidate(ip, idxs0, ml))
    ensures r.Some? && r.value.at == ip && !Hits(sc, ip, idxl0, 8) && Hits(sc, ip1, idxl1, 8) ==>
      exists l1: nat :: l1 <= r.value.length && Whole(sc, Candidate(ip1, idxl1, l1))
  {
    ConfirmedHits(sc, ip, idxl0, 8);
    ConfirmedHits(sc, ip, idxs0, 4);
    ConfirmedHits(sc, ip1, idxl1, 8);
    hide IsMatch, Hits, Confirmed, Longest, Word;
    if Confirmed(sc, idxl0, 8, Word(sc.src, ip, 8)) {
      var ml := Extend(sc, ip, idxl0, 8);
      return Some(Candidate(ip, idxl0, ml));
    }
    if !Confirmed(sc, idxs0, 4, Word(sc.src, ip, 4)) {
      return None;
    }
    var ml := Extend(sc, ip, idxs0, 4);
    if Confirmed(sc, idxl1, 8, Word(sc.src, ip1, 8)) {
      var l1 := Extend(sc, ip1, idxl1, 8);
      assert Whole(sc, Candidate(ip, idxs0, ml)) && Whole(sc, Candidate(ip1, idxl1, l1));
      if l1 > ml {
        return Some(Candidate(ip1, idxl1, l1));
      }
    }
    return Some(Candidate(ip, idxs0, ml));
  }

  /** The match is extended backward as far as the bytes are equal, to the anchor or
      the window's start at most, and emitted. */
  method EmitMatch(sc: Search, c: Cursor, found: Candidate, ghost far: nat) returns (c': Cursor)
    requires At(sc, c, far) && sc.window <= far && IsMatch(sc, found) && c.anchor <= found.at
    ensures At(sc, c', far) && c'.ip == c'.anchor == found.at + found.length
    ensures |c'.seqs| == |c.seqs| + 1 && c'.seqs[..|c.seqs|] == c.seqs && c'.rep0 == found.at - found.from && c'.rep1 == c.rep0
    ensures var s := c'.seqs[|c.seqs|];
      var first := c.anchor + s.literalLength;
      && s.offset == c'.rep0 && first + s.matchLength == found.at + found.length && first <= found.at <= |sc.src|
      && sc.Low() <= first - s.offset
      && (first == c.anchor || first - s.offset == sc.Low() || sc.src[first - 1] != sc.src[first - s.offset - 1])
  {
    hide SameBytes, Found;
    var mip, m := found.at, found.from;
    InSource(sc, found);
    var back := CountBack(sc.src, mip, m, Min(mip - c.anchor, m - sc.Low()));
    EmitBack(sc.src, sc.start, c.seqs, c.anchor, far, mip, m, back, found.length);
    var s := Sequence(mip - back - c.anchor, found.length + back, mip - m);
    c' := Cursor(mip + found.length, mip + found.length, mip - m, c.rep0, c.seqs + [s]);
  }

  lemma InSource(sc: Search, c: Candidate)
    requires IsMatch(sc, c)
    ensures c.at + c.length <= |sc.src|
  {
  }

  /** The repeat offset's match one byte ahead. */
  method EmitRepeat(sc: Search, c: Cursor, ghost far: nat) returns (c': Cursor)
    requires At(sc, c, far) && |sc.src| >= 8 && c.ip <= sc.Limit() && far < 0x1_0000_0000
    requires RepeatsAt(sc, c.ip + 1, c.rep0, Word(sc.src, c.ip, 8)[1..5])
    ensures At(sc, c', far) && c'.ip == c'.anchor >= c.ip + 5
    ensures |c'.seqs| == |c.seqs| + 1 && c'.seqs[..|c.seqs|] == c.seqs && c'.seqs[|c.seqs|].offset == c.rep0
    ensures c.anchor + c'.seqs[|c.seqs|].literalLength == c.ip + 1
    ensures c'.ip == |sc.src| || (c.rep0 <= c'.ip && sc.src[c'.ip] != sc.src[c'.ip - c.rep0])
  {
    hide SameBytes, Found, Word;
    var from: nat := c.ip + 1 - c.rep0;
    PartOfWord(sc.src, c.ip, 8, 1, 5);
    var more := CountMatch(sc.src, c.ip + 5, from + 4, |sc.src|);
    Nothing(sc.src, c.ip + 1, from);
    EmitAround(sc.src, sc.start, c.seqs, c.anchor, far, c.ip + 1, from, 0, 4, more);
    var s := MatchSequence(c.anchor, c.ip + 1, from, 0, 4, more);
    c' := Cursor(c.ip + 1 + s.matchLength, c.ip + 1 + s.matchLength, c.rep0, c.rep1, c.seqs + [s]);
  }

  /** A search has something to take where it stands: the first repeat offset's match one
      byte ahead, or what a table has for the word there. */
  predicate Promises(sc: Search, ip: nat, rep0: nat, long: nat, short: nat)
    requires ip + 8 <= |sc.src|
  {
    || (rep0 <= ip + 1 && ip + 5 <= |sc.src| && sc.src[ip + 1 - rep0..ip + 5 - rep0] == sc.src[ip + 1..ip + 5])
    || (long < ip && Hits(sc, ip, long, 8)) || (short < ip && Hits(sc, ip, short, 4))
  }

  lemma RepeatIs(sc: Search, ip: nat, rep0: nat)
    requires |sc.src| >= 8 && ip + 1 <= sc.Limit() && 0 < rep0 < 0x1_0000_0000
    ensures RepeatsAt(sc, ip + 1, rep0, Word(sc.src, ip, 8)[1..5])
      <==> rep0 <= ip + 1 && sc.src[ip + 1 - rep0..ip + 5 - rep0] == sc.src[ip + 1..ip + 5]
  {
    PartOfWord(sc.src, ip, 8, 1, 5);
  }

  method Store(t: array<Pos>, h: nat, at: nat, ghost bound: nat)
    requires h < t.Length && Below(t, bound) && at < bound <= 0x1_0000_0000
    modifies t
    ensures Below(t, bound)
  {
    t[h] := at;
  }

  /** Insertions after a match, and matches of the second repeat offset at once. */
  method AfterMatch(sc: Search, curr: nat, c0: Cursor, hashLong: array<Pos>, hashShort: array<Pos>, ghost far: nat)
    returns (c: Cursor)
    requires Ready(sc, hashLong, hashShort, far) && At(sc, c0, far) && c0.ip == c0.anchor && curr + 4 <= c0.ip
    requires Below(hashLong, c0.ip) && Below(hashShort, c0.ip)
    modifies hashLong, hashShort
    ensures At(sc, c, far) && c.ip == c.anchor >= c0.ip && |c.seqs| >= |c0.seqs|
    ensures Below(hashLong, c.ip) && Below(hashShort, c.ip)
  {
    hide SameBytes, Found;
    c := c0;
    if c.ip > sc.Limit() {
      return;
    }
    var i := curr + 2;
    Store(hashLong, sc.long(Word(sc.src, i, 8)), i, c.ip);
    Store(hashShort, sc.short(Word(sc.src, i, 8)), i, c.ip);
    Store(hashLong, sc.long(Word(sc.src, c.ip - 2, 8)), c.ip - 2, c.ip);
    Store(hashShort, sc.short(Word(sc.src, c.ip - 1, 8)), c.ip - 1, c.ip);
    while c.ip <= sc.Limit()
      invariant At(sc, c, far) && c.ip == c.anchor >= c0.ip && |c.seqs| >= |c0.seqs|
      invariant Below(hashLong, c.ip) && Below(hashShort, c.ip)
    {
      var v := Word(sc.src, c.ip, 8);
      if !RepeatsAt(sc, c.ip, c.rep1, v[..4]) {
        break;
      }
      c := EmitSecond(sc, c, v, hashLong, hashShort, far);
    }
  }

  /** The second repeat offset's match right at the cursor: the two swap. */
  method EmitSecond(sc: Search, c: Cursor, v: seq<byte>, hashLong: array<Pos>, hashShort: array<Pos>, ghost far: nat)
    returns (c': Cursor)
    requires Ready(sc, hashLong, hashShort, far) && At(sc, c, far) && c.ip == c.anchor <= sc.Limit()
    requires v == Word(sc.src, c.ip, 8) && RepeatsAt(sc, c.ip, c.rep1, v[..4])
    requires Below(hashLong, c.ip) && Below(hashShort, c.ip)
    modifies hashLong, hashShort
    ensures At(sc, c', far) && c'.ip == c'.anchor >= c.ip + 4 && |c'.seqs| == |c.seqs| + 1
    ensures Below(hashLong, c'.ip) && Below(hashShort, c'.ip)
  {
    hide SameBytes, Found, Word;
    var from: nat := c.ip - c.rep1;
    PartOfWord(sc.src, c.ip, 8, 0, 4);
    assert v[0..4] == v[..4];
    var more := CountMatch(sc.src, c.ip + 4, from + 4, |sc.src|);
    Nothing(sc.src, c.ip, from);
    EmitAround(sc.src, sc.start, c.seqs, c.anchor, far, c.ip, from, 0, 4, more);
    var s := MatchSequence(c.anchor, c.ip, from, 0, 4, more);
    c' := Cursor(c.ip + s.matchLength, c.ip + s.matchLength, c.rep1, c.rep0, c.seqs + [s]);
    Store(hashShort, sc.short(v), c.ip, c'.ip);
    Store(hashLong, sc.long(v), c.ip, c'.ip);
  }

  /** The match found and what follows it at once. */
  method TakeMatch(sc: Search, c: Cursor, found: Candidate, hashLong: array<Pos>, hashShort: array<Pos>, ghost far: nat)
    returns (c': Cursor)
    requires Ready(sc, hashLong, hashShort, far) && At(sc, c, far) && IsMatch(sc, found) && c.ip <= found.at
    requires Below(hashLong, found.at + found.length) && Below(hashShort, found.at + found.length)
    modifies hashLong, hashShort
    ensures At(sc, c', far) && c'.ip > c.ip && |c'.seqs| > |c.seqs|
    ensures Below(hashLong, c'.ip) && Below(hashShort, c'.ip)
  {
    TakeReady(sc, c, found, hashLong, hashShort, far);
    hide *;
    c' := EmitMatch(sc, c, found, far);
    c' := AfterMatch(sc, c.ip, c', hashLong, hashShort, far);
  }

  lemma TakeReady(sc: Search, c: Cursor, found: Candidate, hashLong: array<Pos>, hashShort: array<Pos>, far: nat)
    requires Ready(sc, hashLong, hashShort, far) && At(sc, c, far) && IsMatch(sc, found) && c.ip <= found.at
    ensures sc.window <= far && c.anchor <= found.at && found.length >= 4
  {
  }

  /** The repeat one byte ahead and what follows it at once. */
  method TakeRepeat(sc: Search, c: Cursor, hashLong: array<Pos>, hashShort: array<Pos>, ghost far: nat) returns (c': Cursor)
    requires Ready(sc, hashLong, hashShort, far) && At(sc, c, far) && |sc.src| >= 8 && c.ip <= sc.Limit() && far < 0x1_0000_0000
    requires RepeatsAt(sc, c.ip + 1, c.rep0, Word(sc.src, c.ip, 8)[1..5])
    requires Below(hashLong, c.ip + 1) && Below(hashShort, c.ip + 1)
    modifies hashLong, hashShort
    ensures At(sc, c', far) && c'.ip > c.ip && |c'.seqs| > |c.seqs|
    ensures Below(hashLong, c'.ip) && Below(hashShort, c'.ip)
  {
    hide *;
    c' := EmitRepeat(sc, c, far);
    BelowMore(hashLong, c.ip + 1, c'.ip);
    BelowMore(hashShort, c.ip + 1, c'.ip);
    c' := AfterMatch(sc, c.ip, c', hashLong, hashShort, far);
  }

  lemma BelowMore(t: array<Pos>, a: nat, b: nat)
    requires Below(t, a) && a <= b
    ensures Below(t, b)
  {
  }

  /** Searches from `c0.ip` to the next match and past it, or to the end. What it has to
      take at once it takes. */
  method NextMatch(sc: Search, c0: Cursor, hashLong: array<Pos>, hashShort: array<Pos>, ghost far: nat)
    returns (more: bool, c: Cursor)
    requires Ready(sc, hashLong, hashShort, far) && At(sc, c0, far)
    requires Below(hashLong, c0.ip) && Below(hashShort, c0.ip)
    modifies hashLong, hashShort
    ensures At(sc, c, far) && Below(hashLong, c.ip) && Below(hashShort, c.ip)
    ensures |c.seqs| >= |c0.seqs| && (more ==> c.ip > c0.ip && |c.seqs| > |c0.seqs|)
    ensures Starts(sc, c0.ip, old(hashLong[..]), old(hashShort[..]), c0.rep0) ==> more
  {
    hide Found, IsMatch, Word, InTable, Promises, Hits;
    more, c := false, c0;
    var step: nat, nextStep: nat := 1, c.ip + sc.stepIncr;
    var ip1: nat := c.ip + step;
    if ip1 > sc.Limit() {
      return;
    }
    var v0 := Word(sc.src, c.ip, 8);
    assert sc.long(v0) < hashLong.Length by { Indexes(sc.long, v0, hashLong.Length); }
    var hl0 := sc.long(v0);
    var idxl0: nat := hashLong[hl0];
    assert sc.short(v0) < hashShort.Length by { Indexes(sc.short, v0, hashShort.Length); }
    ghost var promise := Promises(sc, c0.ip, c0.rep0, idxl0, hashShort[sc.short(v0)]);
    while true
      invariant At(sc, c, far) && c.anchor == c0.anchor && c0.ip <= c.ip && ip1 == c.ip + step && step >= 1 && ip1 <= sc.Limit()
      invariant Below(hashLong, c.ip) && Below(hashShort, c.ip)
      invariant v0 == Word(sc.src, c.ip, 8) && hl0 == sc.long(v0) < hashLong.Length && idxl0 < c.ip
      invariant c.rep0 == c0.rep0 && c.seqs == c0.seqs
      invariant c.ip == c0.ip ==> promise == Promises(sc, c.ip, c.rep0, idxl0, hashShort[sc.short(v0)])
      invariant c.ip > c0.ip ==> !promise
      decreases |sc.src| - c.ip
    {
      assert sc.short(v0) < hashShort.Length by { Indexes(sc.short, v0, hashShort.Length); }
      var idxs0: nat := hashShort[sc.short(v0)];
      Store(hashLong, hl0, c.ip, c.ip + 1);
      Store(hashShort, sc.short(v0), c.ip, c.ip + 1);
      RepeatIs(sc, c.ip, c.rep0);
      if RepeatsAt(sc, c.ip + 1, c.rep0, v0[1..5]) {
        c := TakeRepeat(sc, c, hashLong, hashShort, far);
        return true, c;
      }
      var v1 := Word(sc.src, ip1, 8);
      assert sc.long(v1) < hashLong.Length by { Indexes(sc.long, v1, hashLong.Length); }
      var hl1 := sc.long(v1);
      var idxl1: nat := hashLong[hl1];
      var found := FindMatch(sc, c.ip, ip1, idxl0, idxs0, idxl1);
      if found.Some? {
        MatchLong(sc, found.value);
        if step < 4 {
          Store(hashLong, hl1, ip1, found.value.at + found.value.length);
        }
        c := TakeMatch(sc, c, found.value, hashLong, hashShort, far);
        return true, c;
      }
      Disappoints(sc, c.ip, c.rep0, idxl0, idxs0);
      if ip1 >= nextStep {
        step, nextStep := step + 1, nextStep + sc.stepIncr;
      }
      c := c.(ip := ip1);
      ip1 := ip1 + step;
      hl0, idxl0, v0 := hl1, idxl1, v1;
      if ip1 > sc.Limit() {
        return;
      }
    }
  }

  /** The tables have a promise for the word at `ip`, which is in reach. */
  predicate Starts(sc: Search, ip: nat, hashLong: seq<Pos>, hashShort: seq<Pos>, rep0: nat) {
    && |sc.src| >= 8 && ip + 1 <= sc.Limit()
    && sc.long(Word(sc.src, ip, 8)) < |hashLong| && sc.short(Word(sc.src, ip, 8)) < |hashShort|
    && Promises(sc, ip, rep0, hashLong[sc.long(Word(sc.src, ip, 8))], hashShort[sc.short(Word(sc.src, ip, 8))])
  }

  lemma Disappoints(sc: Search, ip: nat, rep0: nat, long: nat, short: nat)
    requires |sc.src| >= 8 && ip + 1 <= sc.Limit() && long < ip && short < ip
    requires !Hits(sc, ip, long, 8) && !Hits(sc, ip, short, 4)
    requires !(rep0 <= ip + 1 && sc.src[ip + 1 - rep0..ip + 5 - rep0] == sc.src[ip + 1..ip + 5])
    ensures !Promises(sc, ip, rep0, long, short)
  {
    hide Hits;
  }

  lemma MatchLong(sc: Search, c: Candidate)
    requires IsMatch(sc, c)
    ensures c.length >= 4 && c.at + c.length <= |sc.src|
  {
  }

  lemma Indexes(h: Hash, v: seq<byte>, size: nat)
    requires InTable(h, size)
    ensures h(v) < size
  {
  }

  /** The sequences of the block `src[start..]`. If every table entry lies before
      the block's first cursor, they parse the block, table offsets stay in the
      window, and every entry lies before the block's end, so that the next block
      may follow. There is one at least if there is something to take at once. */
  method CompressBlock(src: seq<byte>, start: nat, window: nat, stepIncr: nat, long: Hash, short: Hash, rep0: nat, rep1: nat,
                       hashLong: array<Pos>, hashShort: array<Pos>)
    returns (seqs: seq<Sequence>)
    requires start <= |src| < 0x1_0000_0000 && 1 <= window < 0x1_0000_0000 && stepIncr >= 1
    requires 0 < rep0 < 0x1_0000_0000 && 0 < rep1 < 0x1_0000_0000
    requires InTable(long, hashLong.Length) && InTable(short, hashShort.Length) && hashLong != hashShort
    requires Below(hashLong, Max(start, 1)) && Below(hashShort, Max(start, 1))
    modifies hashLong, hashShort
    ensures Parses(src, start, seqs) && start + Span(seqs) <= |src|
    ensures forall i :: 0 <= i < |seqs| ==> GoodMatch(seqs[i], Max(window, Max(rep0, rep1)))
    ensures Below(hashLong, Max(|src|, 1)) && Below(hashShort, Max(|src|, 1))
    ensures |src| >= start + 16
      && Starts(Search(src, start, window, stepIncr, long, short), Max(start, 1), old(hashLong[..]), old(hashShort[..]), rep0)
      ==> |seqs| > 0
  {
    hide InTable, Starts;
    ghost var far := Max(window, Max(rep0, rep1));
    if |src| - start < 16 {
      return [];
    }
    var sc := Search(src, start, window, stepIncr, long, short);
    var c := Cursor(if start == 0 then 1 else start, start, rep0, rep1, []);
    ghost var begins := Starts(sc, c.ip, hashLong[..], hashShort[..], rep0);
    ghost var first := c;
    NothingFound(src, start, far);
    var more := true;
    while more
      invariant At(sc, c, far) && Below(hashLong, c.ip) && Below(hashShort, c.ip)
      invariant (more && c == first && hashLong[..] == old(hashLong[..]) && hashShort[..] == old(hashShort[..]))
        || (begins ==> |c.seqs| > 0)
      decreases more, |src| - c.ip
    {
      more, c := NextMatch(sc, c, hashLong, hashShort, far);
    }
    seqs := c.seqs;
  }

  /** Both tables take the words of a prefix: spread out, and all of its end. */
  method Prefill(src: seq<byte>, prefixLen: nat, long: Hash, short: Hash, hashLong: array<Pos>, hashShort: array<Pos>)
    requires prefixLen <= |src| < 0x1_0000_0000 && hashLong != hashShort
    requires InTable(long, hashLong.Length) && InTable(short, hashShort.Length)
    modifies hashLong, hashShort
    ensures Below(hashLong, Max(prefixLen, 1)) && Below(hashShort, Max(prefixLen, 1))
  {
    hide InTable, Word;
    forall i | 0 <= i < hashLong.Length { hashLong[i] := 0; }
    forall i | 0 <= i < hashShort.Length { hashShort[i] := 0; }
    if prefixLen < 8 {
      return;
    }
    Indexes(short, [], hashShort.Length);
    var step := Max(prefixLen / hashShort.Length, 1);
    var i: nat := 0;
    while i + 8 <= prefixLen
      invariant Below(hashLong, prefixLen) && Below(hashShort, prefixLen)
      decreases prefixLen - i
    {
      Insert(src, i, prefixLen, long, short, hashLong, hashShort);
      i := i + step;
    }
    i := if prefixLen >= 64 then prefixLen - 64 else 0;
    while i < prefixLen - 7
      invariant Below(hashLong, prefixLen) && Below(hashShort, prefixLen)
    {
      Insert(src, i, prefixLen, long, short, hashLong, hashShort);
      i := i + 1;
    }
  }

  method Insert(src: seq<byte>, i: nat, bound: nat, long: Hash, short: Hash, hashLong: array<Pos>, hashShort: array<Pos>)
    requires i + 8 <= bound <= |src| < 0x1_0000_0000 && hashLong != hashShort
    requires InTable(long, hashLong.Length) && InTable(short, hashShort.Length)
    requires Below(hashLong, bound) && Below(hashShort, bound)
    modifies hashLong, hashShort
    ensures Below(hashLong, bound) && Below(hashShort, bound)
  {
    var v := Word(src, i, 8);
    Store(hashShort, short(v), i, bound);
    Store(hashLong, long(v), i, bound);
  }
}
