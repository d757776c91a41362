/** The object a sender asks for its level: one window recorded, and the next level. */
module AdaptiveObject {
  import opened Wrappers
  import opened Adaptive
  import opened AdaptiveLaws

  predicate Offered(range: (int, int), level: int) {
    && -7 <= level <= 4 && level != 0
    && (range.0 <= level <= range.1 || (level == -7 && range.0 <= -8 <= range.1) || (level == 1 && range.0 <= 0 <= range.1))
  }

  /** The levels of a range, upward. */
  method LevelsIn(range: (int, int)) returns (found: seq<int>)
    requires exists level :: Offered(range, level)
    ensures 0 < |found| <= LADDER && forall i, j :: 0 <= i < j < |found| ==> found[i] < found[j]
    ensures forall l :: l in found <==> Offered(range, l)
  {
    found := [];
    for level := -7 to 5
      invariant |found| <= level + 7 && (level > 0 ==> |found| <= level + 6)
      invariant forall i :: 0 <= i < |found| ==> Offered(range, found[i]) && found[i] < level
      invariant forall i, j :: 0 <= i < j < |found| ==> found[i] < found[j]
      invariant forall l :: -7 <= l < level && Offered(range, l) ==> l in found
    {
      if Offered(range, level) {
        found := found + [level];
      }
    }
  }

  class AdaptiveLevel {
    var levels: seq<int>
    var samples: seq<Option<Sample>>
    var index: nat
    var probe: Option<Probe>
    var ceiling: Option<Limit>
    var floor: Option<Limit>
    var window: nat

    function State(): Walk
      reads this
    {
      Walk(levels, samples, index, probe, ceiling, floor, window)
    }

    /** Exactly the levels in the range, upward, where -8 stands for -7 and 0 for 1,
        beginning at the first not below `start`, or at the highest. Nothing is
        measured, pending or limited. */
    constructor (range: (int, int), start: int)
      requires exists level :: Offered(range, level)
      ensures State().Valid() && Walking(State(), Ratio) && Walking(State(), Speed)
      ensures forall l :: l in levels <==>
        -7 <= l <= 4 && l != 0
        && (range.0 <= l <= range.1 || (l == -7 && range.0 <= -8 <= range.1) || (l == 1 && range.0 <= 0 <= range.1))
      ensures forall i, j :: 0 <= i < j < |levels| ==> levels[i] < levels[j]
      ensures levels[index] >= start || index == |levels| - 1
      ensures forall i :: 0 <= i < index ==> levels[i] < start
      ensures State() == Walk(levels, seq(|levels|, _ => None), index, None, None, None, 0)
    {
      var found := LevelsIn(range);
      var i: nat := 0;
      while i < |found| - 1 && found[i] < start
        invariant i < |found| && forall j :: 0 <= j < i ==> found[j] < start
      {
        i := i + 1;
      }
      levels, samples, index := found, seq(|found|, _ => None), i;
      probe, ceiling, floor, window := None, None, None, 0;
    }

    /** One window recorded, and the next level: a pending step that hurts is taken
        back, and otherwise the walk goes on, as the numbers measured say. */
    method Update(stats: CompressStats, b: Option<Bottleneck>) returns (level: int)
      requires State().Valid()
      modifies this
      ensures State() == old(State()).Updated(stats, b) && State().Valid() && level == State().Level()
      ensures Decides(old(State()), State(), stats, b)
    {
      hide Walk.Best, Walk.Choice, Kept, Sample.DecayInto, Walk.Walked, Walk.Settle, Walk.Recent, Walk.Reacted, Decides;
      UpdatedValid(State(), stats, b);
      UpdateDecides(State(), stats, b);
      window := window + 1;
      if stats.plain == 0 || stats.busy == 0 {
        return levels[index];
      }
      Measure(Sample(stats.plain, stats.compressed, stats.busy, window));
      React(b);
      return levels[index];
    }

    /** A step that failed is taken back; otherwise the walk goes on. */
    method React(b: Option<Bottleneck>)
      requires State().Valid() && samples[index].Some?
      modifies this
      ensures State() == old(State()).Reacted(b)
    {
      hide Kept, Walk.Walked, Walk.Recent;
      var pending := probe;
      probe := None;
      if pending.Some? && samples[pending.value.from].Some?
         && !Kept(pending.value.goal, samples[pending.value.from].value, samples[index].value, b) {
        SetLimit(pending.value.goal, pending.value.from);
        index := pending.value.from;
      } else {
        Act(b);
      }
    }

    /** Decays what is left of an earlier window at this level. */
    method Measure(sample: Sample)
      requires State().Valid() && sample.plain > 0 && sample.busy > 0
      modifies this`samples
      ensures State() == old(State()).Measured(sample)
    {
      var older := State().Recent(index);
      samples := samples[index := Some(if older.Some? then sample.DecayInto(older.value) else sample)];
    }

    /** Steps toward the bottleneck's goal, or settles. */
    method Act(b: Option<Bottleneck>)
      requires State().Valid()
      modifies this
      ensures State() == old(State()).Walked(b)
    {
      hide Walk.Best, Walk.Choice;
      if b.None? {
        return;
      }
      var goal := GoalOf(b.value);
      var next := State().Next(goal);
      if next.Some? {
        probe := Some(Probe(index, goal));
        index := next.value;
      } else {
        var settled := State().Settle(goal);
        if settled != index || State().LimitFor(goal).None? {
          SetLimit(goal, settled);
        }
        index := settled;
      }
    }

    method SetLimit(g: Goal, i: nat)
      modifies this`ceiling, this`floor
      ensures State() == old(State()).WithLimit(g, i)
    {
      var l := Some(Limit(i, window + RETRY_WINDOWS));
      match g {
        case Ratio => ceiling := l;
        case Speed => floor := l;
      }
    }
  }
}
