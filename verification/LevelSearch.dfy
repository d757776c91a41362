/** The match finder of a compression level, on one stretch of the input. */
module LevelSearch {
  import opened Arith
  import opened Wrappers
  import opened Sequences
  import opened MatchSearch
  import DFast
  import Fast

  datatype Strategy = UseFast | UseDFast

  /** A level's finder: its sizes, its steps and its hashes, and for Fast perhaps a
      dictionary's table. */
  datatype Level = Level(strategy: Strategy, window: nat, mls: nat, stepSize: nat, searchStrength: nat, skipShift: nat,
                         stepIncr: nat, hash: Hash, long: Hash, attached: Option<Fast.Attached>)

  /** The finder can index its tables. DFast needs every entry to lie before
      the stretch. */
  ghost predicate Searchable(p: Level, table: array<Pos>, long: array<Pos>, start: nat)
    reads table, long
  {
    && 1 <= p.window < 0x1_0000_0000 && 4 <= p.mls <= 8 && p.stepSize >= 2 && p.stepIncr >= 1
    && InTable(p.hash, table.Length) && InTable(p.long, long.Length) && table != long
    && (p.attached.Some? ==> InTable(p.attached.value.hash, |p.attached.value.table|))
    && (p.strategy.UseDFast? ==> Below(table, Max(start, 1)) && Below(long, Max(start, 1)))
  }

  lemma SearchableLater(p: Level, table: array<Pos>, long: array<Pos>, start: nat, later: nat)
    requires Searchable(p, table, long, start) && start <= later
    ensures Searchable(p, table, long, later)
  {
  }

  ghost predicate AllGood(seqs: seq<Sequence>, far: nat) {
    forall i :: 0 <= i < |seqs| ==> GoodMatch(seqs[i], far)
  }

  /** Sequences of `src[start..end]`: they parse it, whichever the finder. */
  method SearchBlock(p: Level, src: seq<byte>, start: nat, end: nat, rep0: nat, rep1: nat, table: array<Pos>, long: array<Pos>)
    returns (seqs: seq<Sequence>)
    requires start <= end <= |src| && end < 0x1_0000_0000 && 0 < rep0 < 0x1_0000_0000 && 0 < rep1 < 0x1_0000_0000
    requires Searchable(p, table, long, start)
    modifies table, long
    ensures Parses(src, start, seqs) && start + Span(seqs) <= end
    ensures AllGood(seqs, Max(p.window, Max(rep0, rep1)))
    ensures Searchable(p, table, long, end)
  {
    hide InTable;
    match p.strategy {
      case UseFast =>
        var sc := Fast.Search(src, start, end, p.mls, p.window, p.stepSize, p.searchStrength, p.skipShift, p.hash, p.attached);
        seqs := Fast.CompressBlock(sc, rep0, rep1, table);
      case UseDFast =>
        seqs := DFast.CompressBlock(src[..end], start, p.window, p.stepIncr, p.long, p.hash, rep0, rep1, long, table);
        ParsesPrefix(src, start, seqs, end);
    }
  }
}
