/** What the level walk decides, in the numbers of its measurements: when a step is
    taken back, where the walk goes otherwise, and which level it settles on. */
module AdaptiveLaws {
  import opened Arith
  import opened Wrappers
  import opened Adaptive

  // ----- comparing shares and speeds by cross products -----

  lemma ScaleLess(a: nat, b: nat, d: nat)
    requires d > 0 && d * a <= d * b
    ensures a <= b
  {
    if a > b {
      assert d * a == d * b + d * (a - b);
      assert d * (a - b) >= 1 by { Positive(d, a - b); }
    }
  }

  lemma Positive(a: nat, b: nat)
    requires a > 0 && b > 0
    ensures a * b > 0
  {
  }

  lemma ScaleUp(a: nat, b: nat, k: nat)
    requires a <= b
    ensures a * k <= b * k
  {
  }

  /** Fractions compared by cross products compare transitively. */
  lemma CrossTransitive(a: nat, b: nat, c: nat, d: nat, e: nat, f: nat)
    requires d > 0 && a * d <= c * b && c * f <= e * d
    ensures a * f <= e * b
  {
    ScaleUp(a * d, c * b, f);
    ScaleUp(c * f, e * d, b);
    assert d * (a * f) == a * d * f && c * b * f == c * f * b && e * d * b == d * (e * b);
    ScaleLess(a * f, e * b, d);
  }

  // ----- the levels that settling chooses among -----

  /** A level that was measured within the last 32 windows, on this side of the goal's
      limit if that still holds. */
  predicate Eligible(w: Walk, g: Goal, i: nat) {
    && i < |w.samples| && w.samples[i].Some? && w.window - w.samples[i].value.window < 32
    && (match g
        case Ratio => w.ceiling.Some? && w.window < w.ceiling.value.until ==> i <= w.ceiling.value.index
        case Speed => w.floor.Some? && w.window < w.floor.value.until ==> i >= w.floor.value.index)
  }

  lemma EligibleIs(w: Walk, g: Goal, i: nat)
    requires i < |w.samples|
    ensures Eligible(w, g, i) <==> w.Allowed(g, i) && w.Recent(i).Some?
    ensures Eligible(w, g, i) ==> w.Recent(i) == w.samples[i]
  {
  }

  lemma Beyond(w: Walk, g: Goal)
    ensures forall j: nat :: Eligible(w, g, j) ==> j < |w.samples| && w.samples[j].Some?
  {
  }

  /** No eligible level below `n` has a smaller compressed share than level `m`. */
  predicate Densest(w: Walk, m: nat, n: nat) {
    && Eligible(w, Ratio, m)
    && forall j: nat :: j < n && Eligible(w, Ratio, j) ==>
      w.samples[m].value.compressed * w.samples[j].value.plain <= w.samples[j].value.compressed * w.samples[m].value.plain
  }

  /** None is faster. */
  predicate Fastest(w: Walk, m: nat, n: nat) {
    && Eligible(w, Speed, m)
    && forall j: nat :: j < n && Eligible(w, Speed, j) ==>
      w.samples[j].value.plain * w.samples[m].value.busy <= w.samples[m].value.plain * w.samples[j].value.busy
  }

  lemma NewDensest(w: Walk, m: nat, n: nat)
    requires w.Valid() && m < n < |w.samples| && Densest(w, m, n) && Eligible(w, Ratio, n)
    ensures var s := w.samples[n].value;
      Densest(w, if s.Denser(w.samples[m].value) then n else m, n + 1)
  {
    var s, before := w.samples[n].value, w.samples[m].value;
    if s.Denser(before) {
      forall j: nat | j < n && Eligible(w, Ratio, j)
        ensures s.compressed * w.samples[j].value.plain <= w.samples[j].value.compressed * s.plain
      {
        CrossTransitive(s.compressed, s.plain, before.compressed, before.plain,
                        w.samples[j].value.compressed, w.samples[j].value.plain);
      }
    }
  }

  lemma NewFastest(w: Walk, m: nat, n: nat)
    requires w.Valid() && m < n < |w.samples| && Fastest(w, m, n) && Eligible(w, Speed, n)
    ensures var s := w.samples[n].value;
      Fastest(w, if s.Faster(w.samples[m].value) then n else m, n + 1)
  {
    var s, before := w.samples[n].value, w.samples[m].value;
    if s.Faster(before) {
      forall j: nat | j < n && Eligible(w, Speed, j)
        ensures w.samples[j].value.plain * s.busy <= s.plain * w.samples[j].value.busy
      {
        CrossTransitive(w.samples[j].value.plain, w.samples[j].value.busy, before.plain, before.busy, s.plain, s.busy);
      }
    }
  }

  lemma {:induction false} BestRatio(w: Walk, n: nat) returns (m: nat)
    requires w.Valid() && n <= |w.samples|
    ensures w.Best(Ratio, n).None? ==> forall j: nat :: j < n ==> !Eligible(w, Ratio, j)
    ensures w.Best(Ratio, n).Some? ==> m < n && Densest(w, m, n) && w.Best(Ratio, n) == w.samples[m]
  {
    hide Eligible, Walk.Valid, Walk.Allowed, Walk.Recent;
    m := 0;
    if n > 0 {
      m := BestRatio(w, n - 1);
      OnLadder(w);
      EligibleIs(w, Ratio, n - 1);
      if Eligible(w, Ratio, n - 1) {
        if w.Best(Ratio, n - 1).None? {
          m := n - 1;
          AloneBest(w, n);
        } else {
          NewDensest(w, m, n - 1);
          m := if w.samples[n - 1].value.Denser(w.samples[m].value) then n - 1 else m;
        }
      }
    }
  }

  lemma OnLadder(w: Walk)
    requires w.Valid()
    ensures w.index < |w.samples| == |w.levels|
  {
  }

  lemma AloneBest(w: Walk, n: nat)
    requires 0 < n <= |w.samples|
    ensures Eligible(w, Ratio, n - 1) && (forall j: nat :: j < n - 1 ==> !Eligible(w, Ratio, j)) ==> Densest(w, n - 1, n)
    ensures Eligible(w, Speed, n - 1) && (forall j: nat :: j < n - 1 ==> !Eligible(w, Speed, j)) ==> Fastest(w, n - 1, n)
  {
    hide Eligible;
  }

  lemma {:induction false} BestSpeed(w: Walk, n: nat) returns (m: nat)
    requires w.Valid() && n <= |w.samples|
    ensures w.Best(Speed, n).None? ==> forall j: nat :: j < n ==> !Eligible(w, Speed, j)
    ensures w.Best(Speed, n).Some? ==> m < n && Fastest(w, m, n) && w.Best(Speed, n) == w.samples[m]
  {
    hide Eligible, Walk.Valid, Walk.Allowed, Walk.Recent;
    m := 0;
    if n > 0 {
      m := BestSpeed(w, n - 1);
      OnLadder(w);
      EligibleIs(w, Speed, n - 1);
      if Eligible(w, Speed, n - 1) {
        if w.Best(Speed, n - 1).None? {
          m := n - 1;
          AloneBest(w, n);
        } else {
          NewFastest(w, m, n - 1);
          m := if w.samples[n - 1].value.Faster(w.samples[m].value) then n - 1 else m;
        }
      }
    }
  }

  // ----- settling -----

  /** The level's compressed share is at most 0.5% above the other's. */
  predicate NearDensest(w: Walk, i: nat, m: nat)
    requires Eligible(w, Ratio, i) && Eligible(w, Ratio, m)
  {
    w.samples[i].value.compressed * w.samples[m].value.plain * 1000
      <= w.samples[m].value.compressed * w.samples[i].value.plain * 1005
  }

  /** Its speed is at least 95% of the other's. */
  predicate NearFastest(w: Walk, i: nat, m: nat)
    requires Eligible(w, Speed, i) && Eligible(w, Speed, m)
  {
    w.samples[i].value.plain * w.samples[m].value.busy * 100
      >= w.samples[m].value.plain * w.samples[i].value.busy * 95
  }

  /** Level `i` is the lowest below `n` that is near the densest, `m`. */
  predicate LowestNear(w: Walk, i: nat, m: nat, n: nat)
    requires Eligible(w, Ratio, m)
  {
    && i < n && Eligible(w, Ratio, i) && NearDensest(w, i, m)
    && forall j: nat :: j < i && Eligible(w, Ratio, j) ==> !NearDensest(w, j, m)
  }

  /** Level `i` is the densest below `n` of those near the fastest, `m`. */
  predicate DensestNear(w: Walk, i: nat, m: nat, n: nat)
    requires Eligible(w, Speed, m)
  {
    && i < n && Eligible(w, Speed, i) && NearFastest(w, i, m)
    && forall j: nat :: j < n && Eligible(w, Speed, j) && NearFastest(w, j, m) ==>
      w.samples[i].value.compressed * w.samples[j].value.plain <= w.samples[j].value.compressed * w.samples[i].value.plain
  }

  lemma {:induction false} ChoiceRatio(w: Walk, m: nat, n: nat)
    requires n <= |w.samples| && Eligible(w, Ratio, m)
    ensures var c := w.Choice(Ratio, w.samples[m].value, n);
      if c.Some? then LowestNear(w, c.value, m, n)
      else forall j: nat :: j < n && Eligible(w, Ratio, j) ==> !NearDensest(w, j, m)
  {
    hide Eligible, Walk.Allowed, Walk.Recent;
    if n > 0 {
      ChoiceRatio(w, m, n - 1);
      EligibleIs(w, Ratio, n - 1);
    }
  }

  lemma NewDenser(w: Walk, i: nat, m: nat, n: nat)
    requires w.Valid() && n < |w.samples| && Eligible(w, Speed, m) && DensestNear(w, i, m, n)
    requires Eligible(w, Speed, n) && NearFastest(w, n, m)
    ensures DensestNear(w, if w.samples[n].value.Denser(w.samples[i].value) then n else i, m, n + 1)
  {
    var s, before := w.samples[n].value, w.samples[i].value;
    if s.Denser(before) {
      forall j: nat | j < n && Eligible(w, Speed, j) && NearFastest(w, j, m)
        ensures s.compressed * w.samples[j].value.plain <= w.samples[j].value.compressed * s.plain
      {
        CrossTransitive(s.compressed, s.plain, before.compressed, before.plain,
                        w.samples[j].value.compressed, w.samples[j].value.plain);
      }
    }
  }

  lemma {:induction false} ChoiceSpeed(w: Walk, m: nat, n: nat)
    requires w.Valid() && n <= |w.samples| && Eligible(w, Speed, m)
    ensures var c := w.Choice(Speed, w.samples[m].value, n);
      if c.Some? then DensestNear(w, c.value, m, n)
      else forall j: nat :: j < n && Eligible(w, Speed, j) ==> !NearFastest(w, j, m)
  {
    Beyond(w, Speed);
    hide Eligible, Walk.Valid, Walk.Allowed, Walk.Recent;
    if n > 0 {
      ChoiceSpeed(w, m, n - 1);
      EligibleIs(w, Speed, n - 1);
      var before := w.Choice(Speed, w.samples[m].value, n - 1);
      if Eligible(w, Speed, n - 1) && NearFastest(w, n - 1, m) {
        if before.Some? {
          EligibleIs(w, Speed, before.value);
          NewDenser(w, before.value, m, n - 1);
        }
      }
    }
  }

  /** Settling at level `i`: for ratio the lowest of the eligible levels whose compressed
      share is within 0.5% of the least, for speed the densest of those within 95% of
      the fastest; where the walk stands if no level is eligible. */
  ghost predicate SettlesAt(w: Walk, g: Goal, i: nat) {
    if exists j: nat :: Eligible(w, g, j) then
      match g
      case Ratio => exists m: nat :: Densest(w, m, |w.samples|) && LowestNear(w, i, m, |w.samples|)
      case Speed => exists m: nat :: Fastest(w, m, |w.samples|) && DensestNear(w, i, m, |w.samples|)
    else i == w.index
  }

  lemma SettleRatio(w: Walk)
    requires w.Valid()
    ensures SettlesAt(w, Ratio, w.Settle(Ratio))
  {
    hide Eligible, Walk.Valid, Walk.Best, Walk.Choice;
    OnLadder(w);
    var n := |w.samples|;
    var m := BestRatio(w, n);
    if w.Best(Ratio, n).Some? {
      ChoiceRatio(w, m, n);
      assert Densest(w, m, n);
      assert NearDensest(w, m, m);
    } else {
      Beyond(w, Ratio);
    }
  }

  lemma SettleSpeed(w: Walk)
    requires w.Valid()
    ensures SettlesAt(w, Speed, w.Settle(Speed))
  {
    hide Eligible, Walk.Valid, Walk.Best, Walk.Choice;
    OnLadder(w);
    var n := |w.samples|;
    var m := BestSpeed(w, n);
    if w.Best(Speed, n).Some? {
      ChoiceSpeed(w, m, n);
      assert Fastest(w, m, n);
      assert NearFastest(w, m, m);
    } else {
      Beyond(w, Speed);
    }
  }

  // ----- one window -----

  /** What is left of an earlier window at this level, if it is not too old. */
  predicate Fresh(w: Walk)
    requires w.index < |w.samples|
  {
    w.samples[w.index].Some? && w.window + 1 - w.samples[w.index].value.window < 32
  }

  /** The window's sample: its numbers, and half of the earlier ones at this level. */
  function Now(w: Walk, stats: CompressStats): Sample
    requires w.index < |w.samples|
  {
    if Fresh(w) then
      var older := w.samples[w.index].value;
      Sample(stats.plain + older.plain / 2, stats.compressed + older.compressed / 2, stats.busy + older.busy / 2, w.window + 1)
    else Sample(stats.plain, stats.compressed, stats.busy, w.window + 1)
  }

  /** A step is pending and can be compared with the level it came from. */
  predicate Pending(w: Walk) {
    w.probe.Some? && w.probe.value.from < |w.samples| && w.samples[w.probe.value.from].Some?
  }

  /** A pending step toward ratio hurts when the bottleneck moved to the processor or
      the compressed share rose by more than 2%; one toward speed when it moved to the
      output or the speed fell below 90%. */
  predicate Hurts(w: Walk, now: Sample, b: Option<Bottleneck>)
    requires Pending(w)
  {
    var before := w.samples[w.probe.value.from].value;
    match w.probe.value.goal
    case Ratio => b == Some(Cpu) || now.compressed * before.plain * 100 > before.compressed * now.plain * 102
    case Speed => b == Some(Output) || now.plain * before.busy * 100 < before.plain * now.busy * 90
  }

  /** Back at the level before the step, which 32 windows may not pass. */
  predicate TakenBack(w: Walk, w': Walk)
    requires w.probe.Some?
  {
    var from := w.probe.value.from;
    && w'.index == from && w'.probe == None
    && match w.probe.value.goal
       case Ratio => w'.ceiling == Some(Limit(from, w.window + 33)) && w'.floor == w.floor
       case Speed => w'.floor == Some(Limit(from, w.window + 33)) && w'.ceiling == w.ceiling
  }

  /** The ladder or a limit that holds ends here. */
  predicate Blocked(w: Walk, g: Goal) {
    match g
    case Ratio =>
      w.index + 1 >= |w.levels| || (w.ceiling.Some? && w.window < w.ceiling.value.until && w.index + 1 > w.ceiling.value.index)
    case Speed =>
      w.index == 0 || (w.floor.Some? && w.window < w.floor.value.until && w.index - 1 < w.floor.value.index)
  }

  /** Without a bottleneck the walk stays. Toward ratio it goes up a step, on trial, or
      if it is blocked settles and, unless it stays within a limit that holds, sets one. */
  ghost predicate GoesOn(w: Walk, w': Walk, b: Option<Bottleneck>) {
    if b == None then w' == w
    else if b == Some(Cpu) then
      if Blocked(w, Speed) then
        && SettlesAt(w, Speed, w'.index)
        && w' == w.(index := w'.index,
                    floor := if w'.index == w.index && w.floor.Some? && w.window < w.floor.value.until then w.floor
                             else Some(Limit(w'.index, w.window + 32)))
      else w.index > 0 && w' == w.(index := w.index - 1, probe := Some(Probe(w.index, Speed)))
    else if Blocked(w, Ratio) then
      && SettlesAt(w, Ratio, w'.index)
      && w' == w.(index := w'.index,
                  ceiling := if w'.index == w.index && w.ceiling.Some? && w.window < w.ceiling.value.until then w.ceiling
                             else Some(Limit(w'.index, w.window + 32)))
    else w' == w.(index := w.index + 1, probe := Some(Probe(w.index, Ratio)))
  }

  /** Everything that a window decides. */
  ghost predicate Decides(w: Walk, w': Walk, stats: CompressStats, b: Option<Bottleneck>)
    requires w.index < |w.samples|
  {
    && w'.levels == w.levels && w'.window == w.window + 1
    && if stats.plain == 0 || stats.busy == 0 then w' == w.(window := w.window + 1)
       else
         var now := Now(w, stats);
         && w'.samples == w.samples[w.index := Some(now)]
         && if Pending(w) && Hurts(w, now, b) then TakenBack(w, w')
            else GoesOn(w.(window := w.window + 1, samples := w'.samples, probe := None), w', b)
  }

  lemma WalkedGoesOn(w: Walk, b: Option<Bottleneck>)
    requires w.Valid() && w.probe.None?
    ensures GoesOn(w, w.Walked(b), b)
  {
    hide Walk.Best, Walk.Choice, Walk.Settle, SettlesAt;
    SettleRatio(w);
    SettleSpeed(w);
  }

  lemma MeasuredIs(w: Walk, stats: CompressStats)
    requires w.Valid() && stats.plain > 0 && stats.busy > 0
    ensures var v := w.(window := w.window + 1);
      v.Valid() && v.Measured(Sample(stats.plain, stats.compressed, stats.busy, v.window))
        == v.(samples := w.samples[w.index := Some(Now(w, stats))])
  {
  }

  lemma FailsIs(w: Walk, stats: CompressStats, b: Option<Bottleneck>)
    requires w.Valid() && stats.plain > 0 && stats.busy > 0
    ensures var m := w.(window := w.window + 1, samples := w.samples[w.index := Some(Now(w, stats))]);
      m.Valid() && (m.Fails(b) <==> Pending(w) && Hurts(w, Now(w, stats), b))
  {
    MeasuredIs(w, stats);
    hide Now, Walk.Measured;
  }

  /** The walk with the window's sample. */
  function Sampled(w: Walk, stats: CompressStats): Walk
    requires w.index < |w.samples|
  {
    w.(window := w.window + 1, samples := w.samples[w.index := Some(Now(w, stats))])
  }

  lemma UpdatedIs(w: Walk, stats: CompressStats, b: Option<Bottleneck>)
    requires w.Valid() && stats.plain > 0 && stats.busy > 0
    ensures var m := Sampled(w, stats);
      m.Valid() && m.samples[m.index].Some? && w.Updated(stats, b) == m.Reacted(b)
  {
    MeasuredIs(w, stats);
    hide Now, Walk.Measured, Walk.Reacted;
  }

  lemma ReactedIs(m: Walk, b: Option<Bottleneck>)
    requires m.Valid() && m.samples[m.index].Some? && m.window > 0
    ensures m.(probe := None).Valid()
    ensures if m.Fails(b) then m.probe.Some? && TakenBackFrom(m, m.Reacted(b)) else m.Reacted(b) == m.(probe := None).Walked(b)
  {
    hide Walk.Walked;
  }

  /** The same from the walk with the window's sample. */
  predicate TakenBackFrom(m: Walk, m': Walk)
    requires m.probe.Some?
  {
    && m'.levels == m.levels && m'.samples == m.samples && m'.window == m.window > 0
    && TakenBack(m.(window := m.window - 1), m')
  }

  /** An update decides as the numbers say. */
  lemma UpdateDecides(w: Walk, stats: CompressStats, b: Option<Bottleneck>)
    requires w.Valid()
    ensures Decides(w, w.Updated(stats, b), stats, b)
  {
    if stats.plain == 0 || stats.busy == 0 {
      hide Walk.Reacted, Walk.Measured, GoesOn;
    } else {
      hide Now, Walk.Valid, Walk.Updated, Walk.Reacted, Walk.Fails, Hurts, Walk.Walked, GoesOn;
      OnLadder(w);
      var m := Sampled(w, stats);
      FailsIs(w, stats, b);
      UpdatedIs(w, stats, b);
      ReactedIs(m, b);
      if !m.Fails(b) {
        WalkedGoesOn(m.(probe := None), b);
        WalkedKeeps(m.(probe := None), b);
      }
    }
  }

  lemma WalkedKeeps(w: Walk, b: Option<Bottleneck>)
    requires w.Valid()
    ensures w.Walked(b).levels == w.levels && w.Walked(b).samples == w.samples && w.Walked(b).window == w.window
  {
    hide Walk.Settle, Walk.Best, Walk.Choice;
  }
}
