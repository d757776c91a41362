/** The level walk for a sender whose bottleneck moves: one step at a time toward
    ratio or speed, and back when a step hurts. */
module Adaptive {
  import opened Arith
  import opened Wrappers

  /** Distinct levels: -7 to 4 without 0. */
  const LADDER: nat := 11
  /** Windows a limit holds and a measurement stays new. */
  const RETRY_WINDOWS: nat := 32

  datatype Bottleneck = Output | Cpu | Input

  datatype Goal = Ratio | Speed

  function GoalOf(b: Bottleneck): Goal {
    if b == Cpu then Speed else Ratio
  }

  // ----- measurements -----

  datatype CompressStats = CompressStats(plain: nat, compressed: nat, busy: nat)

  datatype Sample = Sample(plain: nat, compressed: nat, busy: nat, window: nat) {
    function DecayInto(older: Sample): Sample {
      Sample(older.plain / 2 + plain, older.compressed / 2 + compressed, older.busy / 2 + busy, window)
    }

    predicate RatioWithin(other: Sample, num: nat, den: nat) {
      compressed * other.plain * den <= other.compressed * plain * num
    }

    predicate SpeedWithin(other: Sample, num: nat, den: nat) {
      plain * other.busy * den >= other.plain * busy * num
    }

    predicate Denser(other: Sample) {
      compressed * other.plain < other.compressed * plain
    }

    predicate Faster(other: Sample) {
      plain * other.busy > other.plain * busy
    }
  }

  function SampleOf(s: CompressStats, window: nat): Option<Sample> {
    if s.plain > 0 && s.busy > 0 then Some(Sample(s.plain, s.compressed, s.busy, window)) else None
  }

  /** A step fails when it clearly loses its goal, or moves the bottleneck to the
      other side. */
  predicate Kept(g: Goal, previous: Sample, current: Sample, b: Option<Bottleneck>) {
    match g
    case Ratio => b != Some(Cpu) && current.RatioWithin(previous, 102, 100)
    case Speed => b != Some(Output) && current.SpeedWithin(previous, 90, 100)
  }

  // ----- the walk -----

  /** A finished walk blocks steps past `index` until a window. */
  datatype Limit = Limit(index: nat, until: nat)

  datatype Probe = Probe(from: nat, goal: Goal)

  datatype Walk = Walk(levels: seq<int>, samples: seq<Option<Sample>>, index: nat, probe: Option<Probe>,
                       ceiling: Option<Limit>, floor: Option<Limit>, window: nat) {
    /** The level is on the ladder, samples are not empty, a step that is being tried
        is one step, and limits last no longer than they may. */
    ghost predicate Valid() {
      && 0 < |levels| <= LADDER && |samples| == |levels| && index < |levels|
      && (forall i :: 0 <= i < |samples| && samples[i].Some? ==> samples[i].value.plain > 0 && samples[i].value.busy > 0)
      && (probe.Some? ==> probe.value.from < |levels| && index == if probe.value.goal == Ratio then probe.value.from + 1 else probe.value.from - 1)
      && (ceiling.Some? ==> ceiling.value.until <= window + RETRY_WINDOWS)
      && (floor.Some? ==> floor.value.until <= window + RETRY_WINDOWS)
    }

    function Level(): int
      requires Valid()
    {
      levels[index]
    }

    function Recent(i: nat): Option<Sample>
      requires i < |samples|
    {
      if samples[i].Some? && window - samples[i].value.window < RETRY_WINDOWS then samples[i] else None
    }

    function LimitFor(g: Goal): Option<Limit> {
      var l := if g == Ratio then ceiling else floor;
      if l.Some? && window < l.value.until then l else None
    }

    function WithLimit(g: Goal, i: nat): Walk {
      var l := Some(Limit(i, window + RETRY_WINDOWS));
      if g == Ratio then this.(ceiling := l) else this.(floor := l)
    }

    /** One step toward the goal, unless the ladder or the limit ends there. */
    function Next(g: Goal): Option<nat> {
      var limit := LimitFor(g);
      match g
      case Ratio =>
        if index + 1 < |levels| && !(limit.Some? && index + 1 > limit.value.index) then Some(index + 1) else None
      case Speed =>
        if index == 0 || (limit.Some? && index - 1 < limit.value.index) then None else Some(index - 1)
    }

    /** Within the goal's limit. */
    predicate Allowed(g: Goal, i: nat) {
      var limit := LimitFor(g);
      limit.Some? ==> if g == Ratio then i <= limit.value.index else i >= limit.value.index
    }

    /** The best recent sample of the levels below `n`, by the goal alone. */
    function Best(g: Goal, n: nat): Option<Sample>
      requires n <= |samples|
    {
      if n == 0 then None
      else
        var before := Best(g, n - 1);
        if !Allowed(g, n - 1) || Recent(n - 1).None? then before
        else
          var s := Recent(n - 1).value;
          if before.None? || (if g == Ratio then s.Denser(before.value) else s.Faster(before.value)) then Some(s) else before
    }

    /** For ratio, the lowest of the densest levels; for speed, the densest of the
        fastest. */
    function Choice(g: Goal, best: Sample, n: nat): (r: Option<nat>)
      requires n <= |samples|
      ensures r.Some? ==> r.value < n && Allowed(g, r.value) && Recent(r.value).Some?
    {
      if n == 0 then None
      else
        var before := Choice(g, best, n - 1);
        if !Allowed(g, n - 1) || Recent(n - 1).None? then before
        else
          var s := Recent(n - 1).value;
          if g == Ratio then
            if before.None? && s.RatioWithin(best, 1005, 1000) then Some(n - 1) else before
          else if !s.SpeedWithin(best, 95, 100) then before
          else if before.None? || s.Denser(Recent(before.value).value) then Some(n - 1)
          else before
    }

    function Settle(g: Goal): (i: nat)
      requires Valid()
      ensures i < |levels| && (i == index || Allowed(g, i))
    {
      var best := Best(g, |samples|);
      if best.None? then index
      else
        var c := Choice(g, best.value, |samples|);
        if c.None? then index else c.value
    }

    // ----- one window -----

    /** The sample of this window, with what is left of the one before it. */
    function Measured(sample: Sample): (w: Walk)
      requires Valid() && sample.plain > 0 && sample.busy > 0
      ensures w.Valid() && w == this.(samples := w.samples) && w.samples[index].Some?
    {
      var s := if Recent(index).Some? then sample.DecayInto(Recent(index).value) else sample;
      this.(samples := samples[index := Some(s)])
    }

    /** The pending step failed. */
    predicate Fails(b: Option<Bottleneck>)
      requires Valid() && samples[index].Some?
    {
      && probe.Some? && samples[probe.value.from].Some?
      && !Kept(probe.value.goal, samples[probe.value.from].value, samples[index].value, b)
    }

    /** The step or the settling that a bottleneck asks for. */
    function Walked(b: Option<Bottleneck>): Walk
      requires Valid()
    {
      if b.None? then this
      else
        var g := GoalOf(b.value);
        if Next(g).Some? then this.(probe := Some(Probe(index, g)), index := Next(g).value)
        else
          var settled := Settle(g);
          (if settled != index || LimitFor(g).None? then WithLimit(g, settled) else this).(index := settled)
    }

    /** A step that failed is taken back, and limits the goal; otherwise the walk
        goes on. */
    function Reacted(b: Option<Bottleneck>): Walk
      requires Valid() && samples[index].Some?
    {
      if Fails(b) then WithLimit(probe.value.goal, probe.value.from).(index := probe.value.from, probe := None)
      else this.(probe := None).Walked(b)
    }

    function Updated(stats: CompressStats, b: Option<Bottleneck>): Walk
      requires Valid()
    {
      var w := this.(window := window + 1);
      var sample := SampleOf(stats, w.window);
      if sample.None? then w
      else
        w.Measured(sample.value).Reacted(b)
    }
  }

  /** The level stays on its ladder. */
  lemma UpdatedValid(w: Walk, stats: CompressStats, b: Option<Bottleneck>)
    requires w.Valid()
    ensures w.Updated(stats, b).Valid() && w.Updated(stats, b).levels == w.levels
    ensures w.Updated(stats, b).window == w.window + 1
  {
    hide Walk.Walked, Kept, Sample.DecayInto, Walk.Recent;
    var v := w.(window := w.window + 1);
    var sample := SampleOf(stats, v.window);
    if sample.Some? {
      WalkedValid(v.Measured(sample.value).(probe := None), b);
    }
  }

  lemma WalkedValid(w: Walk, b: Option<Bottleneck>)
    requires w.Valid() && w.probe.None?
    ensures w.Walked(b).Valid() && w.Walked(b).levels == w.levels && w.Walked(b).window == w.window
  {
    hide Walk.Best, Walk.Choice, Walk.Recent, Walk.Settle;
  }

  // ----- a constant goal -----

  /** Steps from the end of the ladder that the goal moves away from. */
  function Position(w: Walk, g: Goal): nat
    requires w.index < |w.levels|
  {
    if g == Ratio then w.index else |w.levels| - 1 - w.index
  }

  predicate Asks(b: Option<Bottleneck>, g: Goal) {
    b.Some? ==> GoalOf(b.value) == g
  }

  predicate Live(w: Walk, g: Goal) {
    w.LimitFor(g).Some?
  }

  /** While a limit holds, the walk stands at it, and a step that is being tried
      is one step toward the goal. */
  ghost predicate Walking(w: Walk, g: Goal) {
    && w.Valid()
    && (w.probe.Some? ==> w.probe.value.goal == g)
    && (Live(w, g) ==> w.probe.None? && w.LimitFor(g).value.index == w.index)
  }

  /** Where one window leaves the walk, relative to where it was. */
  ghost predicate Moved(w: Walk, w': Walk, g: Goal)
    requires w.Valid() && w'.Valid()
  {
    && w'.levels == w.levels
    && (Live(w.(window := w.window + 1), g) ==> Live(w', g))
    && (Live(w', g) ==> Position(w', g) <= Position(w, g))
    && (!Live(w', g) ==> Position(w, g) <= Position(w', g) <= Position(w, g) + 1)
  }

  lemma WalkedMoves(w: Walk, b: Option<Bottleneck>, g: Goal)
    requires Walking(w, g) && w.probe.None? && Asks(b, g)
    ensures var w' := w.Walked(b);
      && Walking(w', g) && w'.levels == w.levels
      && (Live(w, g) ==> Live(w', g)) && (Live(w', g) ==> Position(w', g) <= Position(w, g))
      && (!Live(w', g) ==> Position(w, g) <= Position(w', g) <= Position(w, g) + 1)
  {
    hide Walk.Best, Walk.Choice;
  }

  /** What a window's update comes to: nothing without a sample, else back or on. */
  ghost predicate ComesTo(w: Walk, w': Walk, v: Walk, m: Walk, stats: CompressStats, b: Option<Bottleneck>)
    requires v.Valid()
  {
    if SampleOf(stats, v.window).None? then w' == v
    else
      && m.Valid() && m == v.(samples := m.samples)
      && (w' == m.(probe := None).Walked(b)
          || (m.probe.Some? && w' == m.WithLimit(m.probe.value.goal, m.probe.value.from).(index := m.probe.value.from, probe := None)))
  }

  lemma UpdateComesTo(w: Walk, stats: CompressStats, b: Option<Bottleneck>) returns (v: Walk, m: Walk)
    requires w.Valid()
    ensures v == w.(window := w.window + 1) && v.Valid()
    ensures ComesTo(w, w.Updated(stats, b), v, m, stats, b)
  {
    hide Walk.Walked, Kept, Sample.DecayInto;
    v := w.(window := w.window + 1);
    var sample := SampleOf(stats, v.window);
    m := if sample.Some? then v.Measured(sample.value) else v;
  }

  /** A step taken back. */
  lemma BackMoves(w: Walk, m: Walk, g: Goal)
    requires Walking(w, g) && m.Valid() && m == w.(window := w.window + 1, samples := m.samples) && m.probe.Some?
    ensures var w' := m.WithLimit(m.probe.value.goal, m.probe.value.from).(index := m.probe.value.from, probe := None);
      Walking(w', g) && Moved(w, w', g)
  {
  }

  /** A step, a limit or nothing. */
  lemma OnMoves(w: Walk, m: Walk, b: Option<Bottleneck>, g: Goal)
    requires Walking(w, g) && Asks(b, g) && m.Valid() && m == w.(window := w.window + 1, samples := m.samples)
    ensures var w' := m.(probe := None).Walked(b); Walking(w', g) && Moved(w, w', g)
  {
    hide Walk.Walked;
    WalkedMoves(m.(probe := None), b, g);
  }

  /** One window with the goal keeps what the walk has, and moves it a step toward
      the goal, or sets a limit and moves it back. */
  lemma StepMoves(w: Walk, stats: CompressStats, b: Option<Bottleneck>, g: Goal)
    requires Walking(w, g) && Asks(b, g)
    ensures var w' := w.Updated(stats, b); Walking(w', g) && Moved(w, w', g)
  {
    StandsStill(w, g);
    var v, m := UpdateComesTo(w, stats, b);
    hide Walk.Updated, Walk.Walked, Walking, Moved, Walk.WithLimit, Walk.Valid, Asks;
    if SampleOf(stats, v.window).Some? {
      OnMoves(w, m, b, g);
      if m.probe.Some? { BackMoves(w, m, g); }
    }
  }

  lemma StandsStill(w: Walk, g: Goal)
    requires Walking(w, g)
    ensures var w' := w.(window := w.window + 1); Walking(w', g) && Moved(w, w', g)
  {
  }

  // ----- whole runs -----

  datatype Window = Window(stats: CompressStats, bottleneck: Option<Bottleneck>)

  function After(w: Walk, x: Window): (w': Walk)
    requires w.Valid()
    ensures w'.Valid()
  {
    UpdatedValid(w, x.stats, x.bottleneck);
    w.Updated(x.stats, x.bottleneck)
  }

  function Run(w: Walk, run: seq<Window>): (w': Walk)
    requires w.Valid()
    ensures w'.Valid()
    decreases |run|
  {
    if |run| == 0 then w else Run(After(w, run[0]), run[1..])
  }

  /** Windows that take the level toward the goal. */
  function Toward(w: Walk, run: seq<Window>, g: Goal): nat
    requires w.Valid()
    decreases |run|
  {
    if |run| == 0 then 0
    else
      var w' := After(w, run[0]);
      (if Position(w', g) > Position(w, g) then 1 else 0) + Toward(w', run[1..], g)
  }

  /** Windows that take it away. */
  function Away(w: Walk, run: seq<Window>, g: Goal): nat
    requires w.Valid()
    decreases |run|
  {
    if |run| == 0 then 0
    else
      var w' := After(w, run[0]);
      (if Position(w', g) < Position(w, g) then 1 else 0) + Away(w', run[1..], g)
  }

  /** A limit that holds does not expire during the run. */
  predicate NoExpiry(w: Walk, run: seq<Window>, g: Goal)
    requires w.Valid()
    decreases |run|
  {
    if |run| == 0 then true
    else (Live(w, g) ==> Live(w.(window := w.window + 1), g)) && NoExpiry(After(w, run[0]), run[1..], g)
  }

  /** With a constant goal and whatever is measured, the level changes between two
      expiries are bounded by the ladder in each direction. While a limit holds, the
      level moves away from the goal only. */
  lemma {:induction false} RunBounded(w: Walk, run: seq<Window>, g: Goal)
    requires Walking(w, g) && NoExpiry(w, run, g) && forall i :: 0 <= i < |run| ==> Asks(run[i].bottleneck, g)
    ensures Walking(Run(w, run), g)
    ensures Live(w, g) ==> Toward(w, run, g) == 0 && Away(w, run, g) <= Position(w, g)
    ensures !Live(w, g) ==> Toward(w, run, g) <= |w.levels| - 1 - Position(w, g) && Away(w, run, g) <= |w.levels| - 1
    decreases |run|
  {
    assert w.Valid();
    hide Walking, Live, Walk.Updated;
    if |run| > 0 {
      StepMoves(w, run[0].stats, run[0].bottleneck, g);
      RunBounded(After(w, run[0]), run[1..], g);
    }
  }

  /** The last window set the goal's limit. */
  predicate JustSet(w: Walk, g: Goal) {
    var l := if g == Ratio then w.ceiling else w.floor;
    l.Some? && l.value.until == w.window + RETRY_WINDOWS
  }

  /** A walk that settles, whatever limit an earlier phase left, or steps. */
  lemma WalkedPhase(w: Walk, b: Option<Bottleneck>, g: Goal)
    requires w.Valid() && w.probe.None? && Asks(b, g) && !JustSet(w, g)
    ensures var w' := w.Walked(b);
      && w'.Valid() && w'.levels == w.levels
      && (JustSet(w', g) ==> Walking(w', g) && Live(w', g) && Position(w', g) <= Position(w, g))
      && (!JustSet(w', g) ==> Position(w, g) <= Position(w', g) <= Position(w, g) + 1)
  {
    hide Walk.Best, Walk.Choice;
  }

  /** A window of a phase with a constant goal, from any walk: a step that the phase
      before it was trying, or a limit it left, may be pending. Until a limit is set
      the level moves toward the goal only; once it is, the walk stands at it. */
  lemma PhaseStep(w: Walk, stats: CompressStats, b: Option<Bottleneck>, g: Goal)
    requires w.Valid() && Asks(b, g)
    ensures var w' := w.Updated(stats, b);
      && w'.Valid() && w'.levels == w.levels
      && (JustSet(w', g) ==> Walking(w', g) && Live(w', g) && Position(w', g) <= Position(w, g))
      && (!JustSet(w', g) ==> Position(w, g) <= Position(w', g) <= Position(w, g) + 1)
  {
    hide Walk.Best, Walk.Choice, Walk.Settle, Walk.Walked, Kept, Sample.DecayInto;
    UpdatedValid(w, stats, b);
    var v := w.(window := w.window + 1);
    var sample := SampleOf(stats, v.window);
    if sample.Some? {
      var m := v.Measured(sample.value);
      if !m.Fails(b) {
        WalkedPhase(m.(probe := None), b, g);
      }
    }
  }

  /** The first limit that the phase sets does not expire during it. */
  predicate LimitLasts(w: Walk, run: seq<Window>, g: Goal)
    requires w.Valid()
    decreases |run|
  {
    if |run| == 0 then true
    else
      var w' := After(w, run[0]);
      if JustSet(w', g) then NoExpiry(w', run[1..], g) else LimitLasts(w', run[1..], g)
  }

  /** A constant goal from any walk that updates can reach, whatever is measured:
      until the first limit of the phase expires, the level changes are bounded by
      the ladder in each direction. */
  lemma {:induction false} PhaseBounded(w: Walk, run: seq<Window>, g: Goal)
    requires w.Valid() && LimitLasts(w, run, g) && forall i :: 0 <= i < |run| ==> Asks(run[i].bottleneck, g)
    ensures Toward(w, run, g) <= |w.levels| - 1 - Position(w, g) && Away(w, run, g) <= |w.levels| - 1
    decreases |run|
  {
    hide Walking, Live, Walk.Updated, JustSet;
    if |run| > 0 {
      PhaseStep(w, run[0].stats, run[0].bottleneck, g);
      var w' := After(w, run[0]);
      if JustSet(w', g) {
        RunBounded(w', run[1..], g);
      } else {
        PhaseBounded(w', run[1..], g);
      }
    }
  }
}
