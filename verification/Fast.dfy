/** The Fast match finder: four cursors over one hash table, and at a miss over
    an attached dictionary's. Candidates are tested to be behind the cursor, so
    the table may hold anything. */
module Fast {
  import opened Arith
  import opened Wrappers
  import opened Sequences
  import opened MatchCount
  import opened MatchSearch

  /** A read-only table of dictionary positions, in front of the input. */
  datatype Attached = Attached(table: seq<Pos>, hash: Hash, prefixLen: nat)

  datatype Search = Search(src: seq<byte>, start: nat, end: nat, mls: nat, window: nat, stepSize: nat, searchStrength: nat,
                           skipShift: nat, hash: Hash, dict: Option<Attached>) {
    /** The last cursor position that is searched. */
    function Limit(): nat
      requires mls <= end && 8 <= |src|
    {
      Min(end - mls, |src| - 8)
    }

    /** Bytes that confirm a candidate. */
    function Confirm(): nat {
      if mls >= 8 then 8 else 4
    }
  }

  ghost predicate Ready(sc: Search, size: nat, far: nat) {
    && 4 <= sc.mls <= 8 && sc.start + 8 <= sc.end <= |sc.src| && sc.end < 0x1_0000_0000 && sc.stepSize >= 2
    && 1 <= sc.window <= far < 0x1_0000_0000 && InTable(sc.hash, size)
    && (sc.dict.Some? ==> InTable(sc.dict.value.hash, |sc.dict.value.table|))
  }

  datatype Cursor = Cursor(ip: nat, anchor: nat, rep1: nat, rep2: nat, seqs: seq<Sequence>)

  ghost predicate At(sc: Search, c: Cursor, far: nat) {
    && sc.start <= c.anchor <= c.ip <= sc.end <= |sc.src| && 0 < c.rep1 <= far && 0 < c.rep2 <= far
    && Found(sc.src, sc.start, c.seqs, c.anchor, far)
  }

  // ----- candidates -----

  /** One wrapping compare for both bounds of a distance. */
  predicate InWindow(ip: Pos, idx: Pos, maxDistance: nat) {
    WrapSub64(WrapSub64(ip, idx), 1) < maxDistance
  }

  lemma InWindowIs(ip: Pos, idx: Pos, maxDistance: nat)
    requires maxDistance < 0x1_0000_0000
    ensures InWindow(ip, idx, maxDistance) <==> idx < ip && ip - idx <= maxDistance
  {
  }

  /** The bytes at `pos` begin like the word at the cursor. */
  predicate Confirms(sc: Search, pos: nat, v: seq<byte>)
    requires pos + 8 <= |sc.src| && |v| == 8
  {
    if sc.mls >= 8 then Word(sc.src, pos, 8) == v else Word(sc.src, pos, 4) == v[..4]
  }

  lemma ConfirmedWord(sc: Search, pos: nat, ip: nat)
    requires pos + 8 <= |sc.src| && ip + 8 <= |sc.src| && Confirms(sc, pos, Word(sc.src, ip, 8))
    ensures Word(sc.src, ip, sc.Confirm()) == Word(sc.src, pos, sc.Confirm())
  {
    PartOfWord(sc.src, ip, 8, 0, 4);
  }

  ghost predicate Behind(sc: Search, ip: nat, m: nat) {
    && m < ip && ip - m <= sc.window && ip + 8 <= |sc.src|
    && Word(sc.src, ip, sc.Confirm()) == Word(sc.src, m, sc.Confirm())
  }

  /** A candidate lies behind the cursor, in the window, and begins with its bytes:
      four, or eight of a long search. */
  predicate Hits(sc: Search, ip: nat, m: nat)
    requires ip + 8 <= |sc.src|
  {
    m < ip && ip - m <= sc.window &&
    var n := if sc.mls >= 8 then 8 else 4;
    sc.src[m..m + n] == sc.src[ip..ip + n]
  }

  lemma ConfirmsHits(sc: Search, ip: Pos, m: Pos)
    requires ip + 8 <= |sc.src| && sc.window < 0x1_0000_0000
    ensures Hits(sc, ip, m) <==> InWindow(ip, m, sc.window) && m < ip && Confirms(sc, m, Word(sc.src, ip, 8))
  {
    InWindowIs(ip, m, sc.window);
    PartOfWord(sc.src, ip, 8, 0, 4);
  }

  /** What the dictionary's table has for the word, if it is a position of the
      dictionary's. */
  function DictCandidate(sc: Search, v: seq<byte>): Option<Pos>
    requires sc.dict.Some? ==> sc.dict.value.hash(v) < |sc.dict.value.table|
  {
    if sc.dict.Some? && sc.dict.value.table[sc.dict.value.hash(v)] < sc.dict.value.prefixLen
    then Some(sc.dict.value.table[sc.dict.value.hash(v)]) else None
  }

  /** The input table's candidate if it hits, else the dictionary's if that does, and
      none only if neither does. */
  method FindMatch(sc: Search, ip: Pos, idx: Pos, v: seq<byte>, ghost size: nat, ghost far: nat) returns (r: Option<nat>)
    requires Ready(sc, size, far) && ip + 8 <= |sc.src| && v == Word(sc.src, ip, 8)
    ensures r.Some? ==> Behind(sc, ip, r.value)
    ensures sc.dict.Some? ==> sc.dict.value.hash(v) < |sc.dict.value.table|
    ensures r == if Hits(sc, ip, idx) then Some(idx)
      else if DictCandidate(sc, v).Some? && Hits(sc, ip, DictCandidate(sc, v).value) then Some(DictCandidate(sc, v).value)
      else None
  {
    if sc.dict.Some? {
      Indexes(sc.dict.value.hash, v, |sc.dict.value.table|);
      ConfirmsHits(sc, ip, sc.dict.value.table[sc.dict.value.hash(v)]);
    }
    ConfirmsHits(sc, ip, idx);
    hide Word, Found, InWindow, Confirms, InTable, Hits;
    InWindowIs(ip, idx, sc.window);
    if InWindow(ip, idx, sc.window) {
      if Confirms(sc, idx, v) {
        ConfirmedWord(sc, idx, ip);
        return Some(idx);
      }
    }
    if sc.dict.Some? {
      var d := sc.dict.value;
      Indexes(d.hash, v, |d.table|);
      var j := d.table[d.hash(v)];
      InWindowIs(ip, j, sc.window);
      if j < d.prefixLen && InWindow(ip, j, sc.window) {
        if Confirms(sc, j, v) {
          ConfirmedWord(sc, j, ip);
          return Some(j);
        }
      }
    }
    return None;
  }

  lemma Indexes(h: Hash, v: seq<byte>, size: nat)
    requires InTable(h, size)
    ensures h(v) < size
  {
  }

  // ----- matches -----

  /** A match ends where the bytes differ, or at the block's ends: before it the anchor
      or the input's first byte, after it the end. */
  predicate Whole(sc: Search, anchor: nat, first: nat, offset: nat, end: nat)
    requires 0 < offset <= first <= end <= sc.end <= |sc.src|
  {
    && (first == anchor || first == offset || sc.src[first - 1] != sc.src[first - offset - 1])
    && (end == sc.end || sc.src[end] != sc.src[end - offset])
  }

  /** A candidate, extended both ways as far as the bytes are equal, and emitted. */
  method EmitMatch(sc: Search, c: Cursor, ip: nat, m: nat, ghost size: nat, ghost far: nat) returns (c': Cursor)
    requires Ready(sc, size, far) && At(sc, c, far) && c.anchor <= ip && ip + sc.Confirm() <= sc.end && Behind(sc, ip, m)
    ensures At(sc, c', far) && c'.ip == c'.anchor >= ip + 4
    ensures |c'.seqs| == |c.seqs| + 1 && c'.seqs[..|c.seqs|] == c.seqs && c'.rep1 == ip - m && c'.rep2 == c.rep1
    ensures var s := c'.seqs[|c.seqs|];
      var first := c.anchor + s.literalLength;
      && first <= ip && first + s.matchLength == c'.ip && s.offset == ip - m <= first
      && Whole(sc, c.anchor, first, s.offset, c'.ip)
  {
    hide SameBytes, Found, Word, InTable;
    var n := sc.Confirm();
    var back := CountBack(sc.src, ip, m, Min(ip - c.anchor, m));
    var more := CountMatch(sc.src, ip + n, m + n, sc.end);
    EmitAround(sc.src, sc.start, c.seqs, c.anchor, far, ip, m, back, n, more);
    var s := MatchSequence(c.anchor, ip, m, back, n, more);
    c' := Cursor(ip + n + more, ip + n + more, ip - m, c.rep1, c.seqs + [s]);
  }

  /** The repeat offset's match at the cursor ahead, moved back one byte where
      that byte repeats too. */
  method EmitRepeat(sc: Search, c: Cursor, ip2: nat, ghost size: nat, ghost far: nat) returns (c': Cursor)
    requires Ready(sc, size, far) && At(sc, c, far) && c.ip < ip2 && ip2 + sc.Confirm() <= sc.end && ip2 + 8 <= |sc.src|
    requires ip2 >= c.rep1 && Confirms(sc, ip2 - c.rep1, Word(sc.src, ip2, 8))
    ensures At(sc, c', far) && c'.ip == c'.anchor >= ip2 + 4
    ensures |c'.seqs| == |c.seqs| + 1 && c'.seqs[..|c.seqs|] == c.seqs && c'.seqs[|c.seqs|].offset == c.rep1
    ensures c'.ip == sc.end || (c.rep1 <= c'.ip < |sc.src| && sc.src[c'.ip] != sc.src[c'.ip - c.rep1])
  {
    hide SameBytes, Found, Word, InTable, Confirms;
    var n := sc.Confirm();
    var m: nat := ip2 - c.rep1;
    ConfirmedWord(sc, m, ip2);
    var back: nat := 0;
    Nothing(sc.src, ip2, m);
    if ip2 > c.anchor && ip2 > c.rep1 && sc.src[ip2 - 1] == sc.src[ip2 - c.rep1 - 1] {
      back := 1;
      OneSame(sc.src, ip2 - 1, m - 1);
    }
    var more := CountMatch(sc.src, ip2 + n, m + n, sc.end);
    EmitAround(sc.src, sc.start, c.seqs, c.anchor, far, ip2, m, back, n, more);
    var s := MatchSequence(c.anchor, ip2, m, back, n, more);
    c' := Cursor(ip2 + n + more, ip2 + n + more, c.rep1, c.rep2, c.seqs + [s]);
  }

  method Insert(sc: Search, at: nat, table: array<Pos>, ghost far: nat)
    requires Ready(sc, table.Length, far) && at + 8 <= |sc.src| && at < sc.end
    modifies table
  {
    Indexes(sc.hash, Word(sc.src, at, 8), table.Length);
    table[sc.hash(Word(sc.src, at, 8))] := at;
  }

  /** Insertions after a match, and matches of the second repeat offset at once. */
  method AfterMatch(sc: Search, fillPos: nat, c0: Cursor, table: array<Pos>, ghost far: nat) returns (c: Cursor)
    requires Ready(sc, table.Length, far) && At(sc, c0, far) && c0.ip == c0.anchor && fillPos + 4 <= c0.ip
    modifies table
    ensures At(sc, c, far) && c.ip >= c0.ip && |c.seqs| >= |c0.seqs|
  {
    hide Found, InTable, SameBytes;
    c := c0;
    if c.ip > sc.Limit() {
      return;
    }
    Insert(sc, fillPos + 2, table, far);
    Insert(sc, c.ip - 2, table, far);
    while c.ip <= sc.Limit() && c.ip >= c.rep2
      invariant At(sc, c, far) && c0.ip <= c.ip == c.anchor && |c.seqs| >= |c0.seqs|
    {
      if Word(sc.src, c.ip, 4) != Word(sc.src, c.ip - c.rep2, 4) {
        break;
      }
      c := EmitSecond(sc, c, table.Length, far);
      Insert(sc, c.ip - c.seqs[|c.seqs| - 1].matchLength, table, far);
    }
  }

  /** The second repeat offset's match at the cursor: the two swap. */
  method EmitSecond(sc: Search, c: Cursor, ghost size: nat, ghost far: nat) returns (c': Cursor)
    requires Ready(sc, size, far) && At(sc, c, far) && c.ip == c.anchor <= sc.Limit() && c.ip >= c.rep2
    requires Word(sc.src, c.ip, 4) == Word(sc.src, c.ip - c.rep2, 4)
    ensures At(sc, c', far) && c'.ip == c'.anchor >= c.ip + 4
    ensures |c'.seqs| == |c.seqs| + 1 && c'.ip == c.ip + c'.seqs[|c'.seqs| - 1].matchLength
  {
    hide SameBytes, Found, Word, InTable;
    var m: nat := c.ip - c.rep2;
    var more := CountMatch(sc.src, c.ip + 4, m + 4, sc.end);
    Nothing(sc.src, c.ip, m);
    EmitAround(sc.src, sc.start, c.seqs, c.anchor, far, c.ip, m, 0, 4, more);
    var s := MatchSequence(c.anchor, c.ip, m, 0, 4, more);
    c' := Cursor(c.ip + s.matchLength, c.ip + s.matchLength, c.rep2, c.rep1, c.seqs + [s]);
  }

  // ----- the search -----

  /** The match at the cursor and what follows it at once. */
  method TakeMatch(sc: Search, c: Cursor, m: nat, table: array<Pos>, ghost far: nat) returns (c': Cursor)
    requires Ready(sc, table.Length, far) && At(sc, c, far) && c.ip + sc.Confirm() <= sc.end && Behind(sc, c.ip, m)
    modifies table
    ensures At(sc, c', far) && c'.ip > c.ip && |c'.seqs| > |c.seqs|
  {
    hide *;
    Placed(sc, c, far);
    c' := EmitMatch(sc, c, c.ip, m, table.Length, far);
    c' := AfterMatch(sc, c.ip, c', table, far);
  }

  /** The repeat at the cursor ahead and what follows it at once. */
  method TakeRepeat(sc: Search, c: Cursor, ip2: nat, table: array<Pos>, ghost far: nat) returns (c': Cursor)
    requires Ready(sc, table.Length, far) && At(sc, c, far) && c.ip < ip2 && ip2 + sc.Confirm() <= sc.end && ip2 + 8 <= |sc.src|
    requires ip2 >= c.rep1 && Confirms(sc, ip2 - c.rep1, Word(sc.src, ip2, 8))
    modifies table
    ensures At(sc, c', far) && c'.ip > c.ip && |c'.seqs| > |c.seqs|
  {
    hide *;
    c' := EmitRepeat(sc, c, ip2, table.Length, far);
    c' := AfterMatch(sc, c.ip, c', table, far);
  }

  lemma Placed(sc: Search, c: Cursor, far: nat)
    requires At(sc, c, far)
    ensures c.anchor <= c.ip <= sc.end <= |sc.src|
  {
  }

  /** Takes a match at the cursor if a table has one; then the position ahead may be
      kept in the table. */
  method Probe(sc: Search, c: Cursor, idx: Pos, v: seq<byte>, h: nat, ahead: nat, keep: bool, table: array<Pos>, ghost far: nat)
    returns (r: Option<Cursor>)
    requires Ready(sc, table.Length, far) && At(sc, c, far) && c.ip + 8 <= |sc.src| && c.ip + sc.Confirm() <= sc.end
    requires v == Word(sc.src, c.ip, 8) && h < table.Length && ahead < 0x1_0000_0000
    modifies table
    ensures r.Some? ==> At(sc, r.value, far) && r.value.ip > c.ip && |r.value.seqs| > |c.seqs|
    ensures sc.dict.Some? ==> sc.dict.value.hash(v) < |sc.dict.value.table|
    ensures r.None? ==> table[..] == old(table[..]) && !Hits(sc, c.ip, idx)
    ensures r.None? && DictCandidate(sc, v).Some? ==> !Hits(sc, c.ip, DictCandidate(sc, v).value)
  {
    LimitIs(sc, table.Length, far);
    Placed(sc, c, far);
    hide *;
    var m := FindMatch(sc, c.ip, idx, v, table.Length, far);
    if m.None? {
      return None;
    }
    if keep {
      table[h] := ahead;
    }
    var c' := TakeMatch(sc, c, m.value, table, far);
    return Some(c');
  }

  method MovedTo(sc: Search, c: Cursor, ip: nat, ghost far: nat) returns (c': Cursor)
    requires At(sc, c, far) && c.ip <= ip <= sc.end
    ensures c' == c.(ip := ip) && At(sc, c', far) && c'.anchor <= ip
  {
    hide Found;
    c' := c.(ip := ip);
  }

  lemma LimitIs(sc: Search, size: nat, far: nat)
    requires Ready(sc, size, far)
    ensures sc.mls <= sc.end && 8 <= |sc.src| && sc.Limit() + 8 <= |sc.src| && sc.Limit() + sc.Confirm() <= sc.end
    ensures sc.end < 0x1_0000_0000 && sc.stepSize >= 2
  {
  }

  lemma HashesIn(sc: Search, v: seq<byte>, size: nat, far: nat)
    requires Ready(sc, size, far)
    ensures sc.hash(v) < size && (sc.dict.Some? ==> sc.dict.value.hash(v) < |sc.dict.value.table|)
  {
  }

  function ShiftRight(x: nat, n: nat): nat {
    Shr(x, n)
  }

  /** A search has something to take where it stands: the first repeat offset's match a
      step ahead, or what a table has for the word there. */
  predicate Starts(sc: Search, ip: nat, table: seq<Pos>, rep1: nat) {
    && 8 <= |sc.src| && sc.mls <= sc.end && ip + sc.stepSize + 1 < sc.Limit() && sc.hash(Word(sc.src, ip, 8)) < |table|
    && (sc.dict.Some? ==> sc.dict.value.hash(Word(sc.src, ip, 8)) < |sc.dict.value.table|)
    && var n := if sc.mls >= 8 then 8 else 4;
      var p := ip + sc.stepSize;
      || (rep1 <= p && sc.src[p - rep1..p - rep1 + n] == sc.src[p..p + n])
      || Hits(sc, ip, table[sc.hash(Word(sc.src, ip, 8))])
      || (DictCandidate(sc, Word(sc.src, ip, 8)).Some? && Hits(sc, ip, DictCandidate(sc, Word(sc.src, ip, 8)).value))
  }

  lemma RepeatIs(sc: Search, p: nat, rep1: nat)
    requires rep1 <= p && p + 8 <= |sc.src|
    ensures var n := if sc.mls >= 8 then 8 else 4;
      Confirms(sc, p - rep1, Word(sc.src, p, 8)) <==> sc.src[p - rep1..p - rep1 + n] == sc.src[p..p + n]
  {
    PartOfWord(sc.src, p, 8, 0, 4);
  }

  lemma StartsSoon(sc: Search, ip: nat, table: seq<Pos>, rep1: nat)
    requires 8 <= |sc.src| && sc.mls <= sc.end && Starts(sc, ip, table, rep1)
    ensures ip + sc.stepSize + 1 < sc.Limit()
  {
  }

  /** The cursors ahead, the words and hashes of the first two, and the table's candidate
      for the first. */
  datatype Heads = Heads(ip1: nat, ip2: nat, h0: nat, h1: nat, v0: seq<byte>, v1: seq<byte>, idx: Pos)

  ghost predicate Headed(sc: Search, c: Cursor, k: Heads, size: nat) {
    && 8 <= |sc.src| && sc.mls <= sc.end && k.ip1 == c.ip + 1 < k.ip2 && k.ip2 + 1 < sc.Limit() && sc.Limit() + 8 <= |sc.src|
    && k.v0 == Word(sc.src, c.ip, 8) && k.v1 == Word(sc.src, k.ip1, 8) && k.h0 < size && k.h1 < size
  }

  /** Neither the repeat offset at the cursor ahead nor a table has anything. */
  predicate Misses(sc: Search, c: Cursor, k: Heads)
    requires c.ip + 8 <= |sc.src| && k.ip2 + 8 <= |sc.src|
    requires sc.dict.Some? ==> sc.dict.value.hash(k.v0) < |sc.dict.value.table|
  {
    && !(k.ip2 >= c.rep1 && Confirms(sc, k.ip2 - c.rep1, Word(sc.src, k.ip2, 8)))
    && !Hits(sc, c.ip, k.idx)
    && (DictCandidate(sc, k.v0).Some? ==> !Hits(sc, c.ip, DictCandidate(sc, k.v0).value))
  }

  lemma HeadsIn(sc: Search, c: Cursor, k: Heads, size: nat, far: nat)
    requires Ready(sc, size, far) && At(sc, c, far) && Headed(sc, c, k, size)
    ensures c.anchor <= c.ip < k.ip1 < k.ip2 && k.ip2 + 8 < |sc.src| && k.ip2 + sc.Confirm() < sc.end < 0x1_0000_0000
    ensures k.v0 == Word(sc.src, c.ip, 8) && k.v1 == Word(sc.src, k.ip1, 8) && k.h0 < size && k.h1 < size
    ensures sc.dict.Some? ==> sc.dict.value.hash(k.v0) < |sc.dict.value.table|
  {
  }

  /** The first half of a turn: the repeat offset ahead, then the table's candidate. */
  method FirstHalf(sc: Search, c: Cursor, k: Heads, table: array<Pos>, ghost far: nat) returns (r: Option<Cursor>)
    requires Ready(sc, table.Length, far) && At(sc, c, far) && Headed(sc, c, k, table.Length)
    modifies table
    ensures r.Some? ==> At(sc, r.value, far) && r.value.ip > c.ip && |r.value.seqs| > |c.seqs|
    ensures c.ip + 8 <= |sc.src| && k.ip2 + 8 <= |sc.src|
    ensures sc.dict.Some? ==> sc.dict.value.hash(k.v0) < |sc.dict.value.table|
    ensures r.None? ==> Misses(sc, c, k)
  {
    HeadsIn(sc, c, k, table.Length, far);
    hide *;
    table[k.h0] := c.ip;
    var v2 := Word(sc.src, k.ip2, 8);
    if k.ip2 >= c.rep1 && Confirms(sc, k.ip2 - c.rep1, v2) {
      table[k.h1] := k.ip1;
      var c' := TakeRepeat(sc, c, k.ip2, table, far);
      return Some(c');
    }
    r := Probe(sc, c, k.idx, k.v0, k.h1, k.ip1, true, table, far);
    if r.None? { MissesBoth(sc, c, k); }
  }

  lemma MissesBoth(sc: Search, c: Cursor, k: Heads)
    requires c.ip + 8 <= |sc.src| && k.ip2 + 8 <= |sc.src|
    requires sc.dict.Some? ==> sc.dict.value.hash(k.v0) < |sc.dict.value.table|
    requires !(k.ip2 >= c.rep1 && Confirms(sc, k.ip2 - c.rep1, Word(sc.src, k.ip2, 8))) && !Hits(sc, c.ip, k.idx)
    requires DictCandidate(sc, k.v0).Some? ==> !Hits(sc, c.ip, DictCandidate(sc, k.v0).value)
    ensures Misses(sc, c, k)
  {
    hide Hits, Confirms, DictCandidate;
  }

  /** The second half, one cursor on: the table's candidate only. */
  method SecondHalf(sc: Search, c: Cursor, k: Heads, table: array<Pos>, ghost far: nat)
    returns (r: Option<Cursor>, c': Cursor, k': Heads)
    requires Ready(sc, table.Length, far) && At(sc, c, far) && Headed(sc, c, k, table.Length)
    modifies table
    ensures r.Some? ==> At(sc, r.value, far) && r.value.ip > c.ip && |r.value.seqs| > |c.seqs|
    ensures r.None? ==> At(sc, c', far) && c' == c.(ip := c'.ip) && c'.ip > c.ip
    ensures r.None? && k'.ip2 + 1 < SearchEnd(sc) ==> Headed(sc, c', k', table.Length)
  {
    LimitIs(sc, table.Length, far);
    HeadsIn(sc, c, k, table.Length, far);
    hide *;
    var v2 := Word(sc.src, k.ip2, 8);
    HashesIn(sc, v2, table.Length, far);
    c' := MovedTo(sc, c, k.ip1, far);
    k' := Heads(k.ip2, k.ip2 + 1, k.h1, sc.hash(v2), k.v1, v2, table[k.h1]);
    table[k'.h0] := c'.ip;
    r := Probe(sc, c', k'.idx, k'.v0, k'.h1, k'.ip1,
               sc.stepSize + ShiftRight(c'.ip - c'.anchor, sc.searchStrength) <= 4, table, far);
    if r.Some? {
      return;
    }
    c', k' := Onward(sc, c', k', table, far);
  }

  /** The next turn's cursors: the step grows with the distance from the last match. */
  method Onward(sc: Search, c: Cursor, k: Heads, table: array<Pos>, ghost far: nat) returns (c': Cursor, k': Heads)
    requires Ready(sc, table.Length, far) && At(sc, c, far) && c.ip < k.ip1 < k.ip2 && k.ip2 + 8 <= |sc.src| && k.ip2 <= sc.end
    requires k.v1 == Word(sc.src, k.ip1, 8) && k.h1 < table.Length && k.ip2 == k.ip1 + 1
    ensures At(sc, c', far) && c' == c.(ip := c'.ip) && c'.ip > c.ip
    ensures k'.ip2 + 1 < SearchEnd(sc) ==> Headed(sc, c', k', table.Length)
  {
    LimitIs(sc, table.Length, far);
    hide *;
    var v2 := Word(sc.src, k.ip2, 8);
    HashesIn(sc, v2, table.Length, far);
    c' := MovedTo(sc, c, k.ip1, far);
    var step := sc.stepSize + ShiftRight(c'.ip - c'.anchor, sc.skipShift);
    k' := Heads(k.ip2, c'.ip + step, k.h1, sc.hash(v2), k.v1, v2, table[k.h1]);
    if k'.ip2 + 1 < SearchEnd(sc) { HeadedIs(sc, c', k', table.Length, far); }
  }

  lemma HeadedIs(sc: Search, c: Cursor, k: Heads, size: nat, far: nat)
    requires Ready(sc, size, far) && k.ip1 == c.ip + 1 < k.ip2 && k.ip2 + 1 < SearchEnd(sc)
    requires k.ip1 + 8 <= |sc.src| && k.v0 == Word(sc.src, c.ip, 8) && k.v1 == Word(sc.src, k.ip1, 8) && k.h0 < size && k.h1 < size
    ensures Headed(sc, c, k, size)
  {
    hide InTable;
  }

  function SearchEnd(sc: Search): nat {
    if sc.mls <= sc.end && 8 <= |sc.src| then sc.Limit() else 0
  }

  /** Searches from `c0.ip` to the next match and past it, or to the end. What it has to
      take at once it takes. */
  method NextMatch(sc: Search, c0: Cursor, table: array<Pos>, ghost far: nat) returns (more: bool, c: Cursor)
    requires Ready(sc, table.Length, far) && At(sc, c0, far)
    modifies table
    ensures At(sc, c, far) && |c.seqs| >= |c0.seqs| && (more ==> c.ip > c0.ip && |c.seqs| > |c0.seqs|)
    ensures Starts(sc, c0.ip, old(table[..]), c0.rep1) ==> more
  {
    LimitIs(sc, table.Length, far);
    Placed(sc, c0, far);
    ghost var before := table[..];
    ghost var promise := Starts(sc, c0.ip, before, c0.rep1);
    if promise { StartsSoon(sc, c0.ip, before, c0.rep1); }
    hide *;
    more, c := false, c0;
    if c.ip + sc.stepSize + 1 >= sc.Limit() {
      return;
    }
    var v0, v1 := Word(sc.src, c.ip, 8), Word(sc.src, c.ip + 1, 8);
    HashesIn(sc, v0, table.Length, far);
    HashesIn(sc, v1, table.Length, far);
    var k := Heads(c.ip + 1, c.ip + sc.stepSize, sc.hash(v0), sc.hash(v1), v0, v1, table[sc.hash(v0)]);
    SearchEndIs(sc);
    HeadedIs(sc, c, k, table.Length, far);
    while true
      invariant At(sc, c, far) && Headed(sc, c, k, table.Length) && c0.ip <= c.ip && c.seqs == c0.seqs
      invariant c.ip > c0.ip ==> !promise
      invariant c.ip == c0.ip ==> c == c0 && k.ip2 == c.ip + sc.stepSize && k.v0 == v0 && k.idx == before[sc.hash(v0)]
      decreases |sc.src| - c.ip
    {
      var found := FirstHalf(sc, c, k, table, far);
      if found.Some? {
        return true, found.value;
      }
      if c.ip == c0.ip { NoStart(sc, c, k, before); }
      found, c, k := SecondHalf(sc, c, k, table, far);
      if found.Some? {
        return true, found.value;
      }
      Placed(sc, c, far);
      if k.ip2 + 1 >= sc.Limit() {
        return;
      }
    }
  }

  /** Nothing to take: neither the repeat offset nor a table. */
  lemma NoStart(sc: Search, c: Cursor, k: Heads, table: seq<Pos>)
    requires 8 <= |sc.src| && sc.mls <= sc.end && c.ip + 8 <= |sc.src| && k.ip2 + 8 <= |sc.src| && k.ip2 == c.ip + sc.stepSize
    requires k.v0 == Word(sc.src, c.ip, 8) && sc.hash(k.v0) < |table| && k.idx == table[sc.hash(k.v0)]
    requires sc.dict.Some? ==> sc.dict.value.hash(k.v0) < |sc.dict.value.table|
    requires Misses(sc, c, k)
    ensures !Starts(sc, c.ip, table, c.rep1)
  {
    hide Hits, Confirms, DictCandidate;
    if c.rep1 <= k.ip2 { RepeatIs(sc, k.ip2, c.rep1); }
  }

  lemma SearchEndIs(sc: Search)
    ensures sc.mls <= sc.end && 8 <= |sc.src| ==> SearchEnd(sc) == sc.Limit()
  {
  }

  /** The sequences of the block `src[start..end]`, whatever the tables hold and
      however they hash. They parse the block, with matches of four bytes and
      more, and table offsets stay in the window. There is one at least if there is
      something to take at once. */
  method CompressBlock(sc: Search, rep1: nat, rep2: nat, table: array<Pos>) returns (seqs: seq<Sequence>)
    requires sc.start <= sc.end <= |sc.src| && sc.end < 0x1_0000_0000 && 4 <= sc.mls <= 8 && sc.stepSize >= 2
    requires 1 <= sc.window < 0x1_0000_0000 && 0 < rep1 < 0x1_0000_0000 && 0 < rep2 < 0x1_0000_0000
    requires InTable(sc.hash, table.Length)
    requires sc.dict.Some? ==> InTable(sc.dict.value.hash, |sc.dict.value.table|)
    modifies table
    ensures Parses(sc.src, sc.start, seqs) && sc.start + Span(seqs) <= sc.end
    ensures forall i :: 0 <= i < |seqs| ==> GoodMatch(seqs[i], Max(sc.window, Max(rep1, rep2)))
    ensures sc.end >= sc.start + 8 && Starts(sc, sc.start, old(table[..]), rep1) ==> |seqs| > 0
  {
    hide InTable, Starts;
    ghost var far := Max(sc.window, Max(rep1, rep2));
    NothingFound(sc.src, sc.start, far);
    if sc.end - sc.start < 8 {
      return [];
    }
    var c := Cursor(sc.start, sc.start, rep1, rep2, []);
    ghost var first, begins := c, Starts(sc, sc.start, table[..], rep1);
    var more := true;
    while more
      invariant At(sc, c, far)
      invariant (more && c == first && table[..] == old(table[..])) || (begins ==> |c.seqs| > 0)
      decreases more, |sc.src| - c.ip
    {
      more, c := NextMatch(sc, c, table, far);
    }
    seqs := c.seqs;
  }

  /** Fills a table with a prefix's positions, spread out, and all of its end. */
  method Prefill(combined: seq<byte>, prefixLen: nat, hash: Hash, table: array<Pos>)
    requires prefixLen <= |combined| && prefixLen < 0x1_0000_0000 && InTable(hash, table.Length)
    modifies table
    ensures Below(table, Max(prefixLen, 1))
  {
    hide InTable, Word;
    forall i | 0 <= i < table.Length { table[i] := 0; }
    var end := Min(prefixLen, if |combined| >= 7 then |combined| - 7 else 0);
    Indexes(hash, [], table.Length);
    var step := Max(prefixLen / table.Length, 1);
    var i: nat := 0;
    while i < end
      invariant Below(table, Max(prefixLen, 1))
      decreases end - i
    {
      Indexes(hash, Word(combined, i, 8), table.Length);
      table[hash(Word(combined, i, 8))] := i;
      i := i + step;
    }
    i := if end >= 64 then end - 64 else 0;
    while i < end
      invariant Below(table, Max(prefixLen, 1))
    {
      Indexes(hash, Word(combined, i, 8), table.Length);
      table[hash(Word(combined, i, 8))] := i;
      i := i + 1;
    }
  }
}
