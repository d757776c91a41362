/** The walk that spreads symbols over an FSE table (section 4.1.1 of RFC
    8878): from position 0, always ahead by the same odd step, modulo the
    table size. */
module StepWalk {
  import opened Arith

  function Step(log: nat): nat {
    Pow2(log) / 2 + Pow2(log) / 8 + 3
  }

  /** `(position + step) & mask`. */
  function Next(position: nat, log: nat): (p: nat)
    ensures p < Pow2(log)
  {
    Low(position + Step(log), log)
  }

  /** The position after `k` steps. */
  function Orbit(k: nat, log: nat): (p: nat)
    ensures p < Pow2(log)
  {
    if k == 0 then 0 else Next(Orbit(k - 1, log), log)
  }

  lemma StepIsOdd(log: nat)
    requires log >= 5
    ensures Step(log) % 2 == 1
  {
    assert Pow2(log) == 16 * Pow2(log - 4) by {
      assert Pow2(log) == 2 * Pow2(log - 1) && Pow2(log - 1) == 2 * Pow2(log - 2);
      assert Pow2(log - 2) == 2 * Pow2(log - 3) && Pow2(log - 3) == 2 * Pow2(log - 4);
    }
  }

  lemma LowSum(a: nat, b: nat, n: nat)
    ensures Low(Low(a, n) + b, n) == Low(a + b, n)
  {
    SplitAt(a, n);
    LowAdd(Low(a, n) + b, Shr(a, n), n, n);
  }

  /** Two steps at once. */
  lemma NextNext(position: nat, log: nat)
    ensures Next(Next(position, log), log) == Low(position + 2 * Step(log), log)
  {
    hide Pow2;
    LowSum(position + Step(log), Step(log), log);
  }

  lemma {:induction false} OrbitIsMultiple(k: nat, log: nat)
    ensures Orbit(k, log) == Low(k * Step(log), log)
  {
    if k == 0 {
      LowOfSmall(0, log);
    } else {
      OrbitIsMultiple(k - 1, log);
      LowSum((k - 1) * Step(log), Step(log), log);
      assert (k - 1) * Step(log) + Step(log) == k * Step(log);
    }
  }

  lemma OddTimesOdd(a: nat, b: nat)
    ensures ((2 * a + 1) * (2 * b + 1)) % 2 == 1
  {
    assert (2 * a + 1) * (2 * b + 1) == 2 * (a * (2 * b + 1) + b) + 1;
  }

  /** An odd factor cannot contribute to a multiple of a power of two. */
  lemma {:induction false} OddFactor(d: nat, odd: nat, q: nat, n: nat)
    requires odd % 2 == 1 && d * odd == Shl(q, n)
    ensures d == 0 || d >= Pow2(n)
  {
    if n > 0 {
      OddTimesOdd(d / 2, odd / 2);
      assert d == 2 * (d / 2);
      assert (2 * (d / 2)) * odd == 2 * ((d / 2) * odd);
      OddFactor(d / 2, odd, q, n - 1);
    }
  }

  /** Numbers with the same low bits differ by a multiple. */
  lemma DifferenceIsMultiple(a: nat, b: nat, n: nat) returns (q: nat)
    requires a <= b && Low(a, n) == Low(b, n)
    ensures b - a == Shl(q, n)
  {
    SplitAt(a, n);
    SplitAt(b, n);
    ShrMono(a, b, n);
    q := Shr(b, n) - Shr(a, n);
    ShlAdd(q, Shr(a, n), n);
  }

  lemma OddMultiplesDiffer(i: nat, j: nat, odd: nat, n: nat)
    requires odd % 2 == 1 && i < j < Pow2(n)
    ensures Low(i * odd, n) != Low(j * odd, n)
  {
    hide Pow2;
    var d := j - i;
    assert j * odd == i * odd + d * odd;
    if Low(i * odd, n) == Low(j * odd, n) {
      var q := DifferenceIsMultiple(i * odd, j * odd, n);
      OddFactor(d, odd, q, n);
    }
  }

  /** The walk meets no position twice before it has met all. */
  lemma OrbitInjective(i: nat, j: nat, log: nat)
    requires log >= 5 && i < j < Pow2(log)
    ensures Orbit(i, log) != Orbit(j, log)
  {
    OrbitIsMultiple(i, log);
    OrbitIsMultiple(j, log);
    StepIsOdd(log);
    OddMultiplesDiffer(i, j, Step(log), log);
  }

  lemma {:induction false} Pow2Times(n: nat, x: nat)
    ensures Pow2(n) * x == Shl(x, n)
  {
    if n > 0 {
      Pow2Times(n - 1, x);
      assert (2 * Pow2(n - 1)) * x == 2 * (Pow2(n - 1) * x);
    }
  }

  lemma LowIsMod(x: nat, n: nat)
    ensures Low(x, n) == x % Pow2(n)
  {
    SplitAt(x, n);
    Pow2Times(n, Shr(x, n));
    ModUnique(x, Low(x, n), Shr(x, n), Pow2(n));
  }

  lemma AtLeastOnce(d: int, a: int)
    requires d > 0 && a >= 1
    ensures d * a >= d
  {
  }

  lemma SameQuotient(r: int, r': int, q: int, q': int, d: int)
    requires 0 <= r < d && 0 <= r' < d && r + d * q == r' + d * q'
    ensures r == r'
  {
    assert d * (q' - q) == d * q' - d * q && d * (q - q') == d * q - d * q';
    if q' > q { AtLeastOnce(d, q' - q); } else if q' < q { AtLeastOnce(d, q - q'); }
  }

  lemma ModUnique(x: int, r: int, q: int, d: int)
    requires 0 <= r < d && x == r + d * q
    ensures x % d == r
  {
    SameQuotient(r, x % d, q, x / d, d);
  }

  /** The walk in plain arithmetic. */
  lemma OrbitIs(t: nat, log: nat)
    ensures Orbit(t, log) == t * (Pow2(log) / 2 + Pow2(log) / 8 + 3) % Pow2(log)
  {
    OrbitIsMultiple(t, log);
    LowIsMod(t * Step(log), log);
  }

  /** A full walk is back where it began. */
  lemma OrbitReturns(log: nat)
    ensures Orbit(Pow2(log), log) == 0
  {
    OrbitIsMultiple(Pow2(log), log);
    Pow2Times(log, Step(log));
    SplitUnique(0, Step(log), log);
  }

  // ----- the positions the walk visits at or below a threshold -----

  /** Positions at most `top` among the first `k` of the walk, in walk order. */
  ghost function Visits(k: nat, log: nat, top: nat): seq<nat> {
    if k == 0 then []
    else
      var p := Orbit(k - 1, log);
      var v := Visits(k - 1, log, top);
      if p <= top then v + [p] else v
  }

  ghost function OrbitSet(k: nat, log: nat): set<nat> {
    if k == 0 then {} else OrbitSet(k - 1, log) + {Orbit(k - 1, log)}
  }

  ghost function Range(n: nat): set<nat> {
    if n == 0 then {} else Range(n - 1) + {n - 1}
  }

  lemma {:induction false} RangeSize(n: nat)
    ensures |Range(n)| == n
    ensures forall x: nat :: x in Range(n) <==> x < n
  {
    if n > 0 {
      RangeSize(n - 1);
    }
  }

  lemma {:induction false} OrbitSetMember(k: nat, log: nat, p: nat) returns (i: nat)
    requires p in OrbitSet(k, log)
    ensures i < k && Orbit(i, log) == p
  {
    if p in OrbitSet(k - 1, log) {
      i := OrbitSetMember(k - 1, log, p);
    } else {
      i := k - 1;
    }
  }

  lemma OrbitIsFresh(k: nat, log: nat)
    requires log >= 5 && k < Pow2(log)
    ensures Orbit(k, log) !in OrbitSet(k, log)
  {
    if Orbit(k, log) in OrbitSet(k, log) {
      var i := OrbitSetMember(k, log, Orbit(k, log));
      OrbitInjective(i, k, log);
    }
  }

  lemma {:induction false} OrbitSetSize(k: nat, log: nat)
    requires log >= 5 && k <= Pow2(log)
    ensures |OrbitSet(k, log)| == k && OrbitSet(k, log) <= Range(Pow2(log))
  {
    RangeSize(Pow2(log));
    if k > 0 {
      OrbitSetSize(k - 1, log);
      OrbitIsFresh(k - 1, log);
    }
  }

  lemma SubsetOfSameSize(a: set<nat>, b: set<nat>)
    requires a <= b && |a| == |b|
    ensures a == b
  {
    assert b == a + (b - a);
    assert |b| == |a| + |b - a|;
  }

  /** The walk meets every position. */
  lemma OrbitIsOnto(log: nat)
    requires log >= 5
    ensures OrbitSet(Pow2(log), log) == Range(Pow2(log))
  {
    OrbitSetSize(Pow2(log), log);
    RangeSize(Pow2(log));
    SubsetOfSameSize(OrbitSet(Pow2(log), log), Range(Pow2(log)));
  }

  ghost predicate Distinct(s: seq<nat>) {
    forall i, j :: 0 <= i < j < |s| ==> s[i] != s[j]
  }

  ghost function Elements(s: seq<nat>): set<nat> {
    set i | 0 <= i < |s| :: s[i]
  }

  lemma {:induction false} DistinctSize(s: seq<nat>)
    requires Distinct(s)
    ensures |Elements(s)| == |s|
  {
    if |s| == 0 {
      assert Elements(s) == {};
    } else {
      var n := |s| - 1;
      DistinctSize(s[..n]);
      assert Elements(s) == Elements(s[..n]) + {s[n]};
    }
  }

  lemma ElementsAppend(s: seq<nat>, x: nat)
    ensures Elements(s + [x]) == Elements(s) + {x}
  {
    var t := s + [x];
    assert t[|s|] == x;
    forall y | y in Elements(s) ensures y in Elements(t) {
      var i :| 0 <= i < |s| && s[i] == y;
      assert t[i] == y;
    }
  }

  lemma DistinctAppend(s: seq<nat>, x: nat)
    requires Distinct(s) && x !in Elements(s)
    ensures Distinct(s + [x])
  {
    forall i | 0 <= i < |s| ensures s[i] != x {
      assert s[i] in Elements(s);
    }
  }

  ghost function AtMost(s: set<nat>, top: nat): set<nat> {
    set p | p in s && p <= top
  }

  lemma AtMostAdd(s: set<nat>, p: nat, top: nat)
    ensures AtMost(s + {p}, top) == AtMost(s, top) + (if p <= top then {p} else {})
  {
  }

  lemma {:induction false} VisitsElements(k: nat, log: nat, top: nat)
    ensures Elements(Visits(k, log, top)) == AtMost(OrbitSet(k, log), top)
  {
    if k > 0 {
      VisitsElements(k - 1, log, top);
      ElementsAppend(Visits(k - 1, log, top), Orbit(k - 1, log));
      AtMostAdd(OrbitSet(k - 1, log), Orbit(k - 1, log), top);
    }
  }

  lemma {:induction false} VisitsDistinct(k: nat, log: nat, top: nat)
    requires log >= 5 && k <= Pow2(log)
    ensures Distinct(Visits(k, log, top))
  {
    if k > 0 {
      VisitsDistinct(k - 1, log, top);
      VisitsElements(k - 1, log, top);
      OrbitIsFresh(k - 1, log);
      if Orbit(k - 1, log) <= top {
        DistinctAppend(Visits(k - 1, log, top), Orbit(k - 1, log));
      }
    }
  }

  lemma {:induction false} VisitsPrefix(j: nat, k: nat, log: nat, top: nat)
    requires j <= k
    ensures Visits(j, log, top) <= Visits(k, log, top)
  {
    if j < k {
      VisitsPrefix(j, k - 1, log, top);
    }
  }

  /** A full walk visits each position up to the threshold exactly once. */
  lemma FullVisits(log: nat, top: nat)
    requires log >= 5 && top < Pow2(log)
    ensures |Visits(Pow2(log), log, top)| == top + 1
    ensures Distinct(Visits(Pow2(log), log, top))
    ensures Elements(Visits(Pow2(log), log, top)) == Range(top + 1)
  {
    VisitsElements(Pow2(log), log, top);
    VisitsDistinct(Pow2(log), log, top);
    OrbitIsOnto(log);
    RangeSize(top + 1);
    RangeSize(Pow2(log));
    var v := Visits(Pow2(log), log, top);
    assert Elements(v) == Range(top + 1);
    DistinctSize(v);
  }

  /** Without a threshold the visits are the walk itself. */
  lemma {:induction false} VisitsAll(k: nat, log: nat)
    ensures |Visits(k, log, Pow2(log) - 1)| == k
    ensures forall i :: 0 <= i < k ==> Visits(k, log, Pow2(log) - 1)[i] == Orbit(i, log)
  {
    if k > 0 {
      VisitsAll(k - 1, log);
    }
  }
}
