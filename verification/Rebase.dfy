/** Table positions on inputs past 4 GiB: where they count from, and how tables
    move along. */
module Rebase {
  import opened Arith
  import opened Wrappers
  import opened MatchSearch

  /** The longest stretch of input that positions can address. */
  const MAX_SPAN: nat := 0xFFFF_FFFF
  const MAX_BLOCK: nat := 131072

  /** Positions count from `base`, and the next block begins at `at`: it is within
      the span, and a full window before it can be named. */
  ghost predicate InSpan(base: nat, window: nat, at: nat) {
    base <= at && at - base <= MAX_SPAN && at - base >= Min(window, at)
  }

  /** The base for a block. */
  function Advanced(base: nat, window: nat, start: nat, end: nat): nat
    requires base <= start <= end
  {
    if end - base <= MAX_SPAN || start - base <= window then base else start - window
  }

  /** The block's positions fit, a full window is visible, the shift fits 32 bits,
      and the block after it may follow. */
  lemma AdvancedFits(base: nat, window: nat, start: nat, end: nat)
    requires InSpan(base, window, start) && start <= end <= start + MAX_BLOCK && window + MAX_BLOCK <= MAX_SPAN
    ensures var b := Advanced(base, window, start, end);
      && base <= b <= start && InSpan(b, window, start) && InSpan(b, window, end)
      && b - base <= MAX_SPAN - window
      && (b != base ==> start - b == window)
  {
  }

  // ----- whole runs -----

  /** Where blocks of these sizes end. */
  function EndOf(sizes: seq<nat>): nat {
    if |sizes| == 0 then 0 else EndOf(sizes[..|sizes| - 1]) + sizes[|sizes| - 1]
  }

  /** The base after all of them. */
  function BaseOf(sizes: seq<nat>, window: nat): (b: nat)
    ensures b <= EndOf(sizes)
  {
    if |sizes| == 0 then 0
    else
      var before := sizes[..|sizes| - 1];
      Advanced(BaseOf(before, window), window, EndOf(before), EndOf(sizes))
  }

  /** On every run of blocks, however long, positions stay within 32 bits and a
      full window stays visible at every block. */
  lemma {:induction false} RunInSpan(sizes: seq<nat>, window: nat)
    requires window + MAX_BLOCK <= MAX_SPAN && forall i :: 0 <= i < |sizes| ==> sizes[i] <= MAX_BLOCK
    ensures Min(window, EndOf(sizes)) <= EndOf(sizes) - BaseOf(sizes, window) <= 0xFFFF_FFFF
    ensures InSpan(BaseOf(sizes, window), window, EndOf(sizes))
    ensures |sizes| > 0 ==> InSpan(BaseOf(sizes, window), window, EndOf(sizes[..|sizes| - 1]))
  {
    if |sizes| > 0 {
      var before := sizes[..|sizes| - 1];
      RunInSpan(before, window);
      AdvancedFits(BaseOf(before, window), window, EndOf(before), EndOf(sizes));
    }
  }

  class PositionBase {
    var base: nat
    const window: nat

    constructor (window: nat)
      ensures base == 0 && this.window == window
    {
      base, this.window := 0, window;
    }

    /** Prepares for a block, and says how far to move table entries down. */
    method Advance(start: nat, end: nat) returns (shift: Option<Pos>)
      requires InSpan(base, window, start) && start <= end <= start + MAX_BLOCK && window + MAX_BLOCK <= MAX_SPAN
      modifies this`base
      ensures base == Advanced(old(base), window, start, end)
      ensures base != old(base) <==> end - old(base) > 0xFFFF_FFFF && start - old(base) > window
      ensures base != old(base) ==> start - base == window
      ensures shift == if base == old(base) then None else Some(base - old(base))
    {
      if end - base <= MAX_SPAN {
        return None;
      }
      var s := if start - base >= window then start - base - window else 0;
      if s == 0 {
        return None;
      }
      AdvancedFits(base, window, start, end);
      base := base + s;
      return Some(s);
    }
  }

  // ----- tables -----

  /** An entry counted from `base'` names the byte it named from `base`, or was
      cleared because that byte is before `base'`. */
  ghost predicate Renamed(base: nat, entry: Pos, base': nat, entry': Pos) {
    if base + entry >= base' then base' + entry' == base + entry else entry' == 0
  }

  /** Moves a table's entries down: what survives names the same byte, counted from
      `shift`. Entries that lay behind a block's start still do. */
  method ReduceHashTable(table: array<Pos>, shift: Pos, ghost start: nat)
    modifies table
    ensures forall i :: 0 <= i < table.Length ==> Renamed(0, old(table[i]), shift, table[i])
    ensures old(Below(table, Max(start, 1))) && shift < start ==> Below(table, Max(start - shift, 1))
  {
    for i := 0 to table.Length
      invariant forall j :: 0 <= j < i ==> Renamed(0, old(table[j]), shift, table[j])
      invariant forall j :: i <= j < table.Length ==> table[j] == old(table[j])
    {
      table[i] := if table[i] < shift then 0 else table[i] - shift;
    }
  }
}
