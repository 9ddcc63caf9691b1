/**
 A rolling update replica by replica: new replicas start while the total stays under a
 ceiling, old ones stop while it stays over a floor. What AllowsCoexistence
 (internal/ir/workload.go) answers is proved against the counts such an update passes through.
 */
module Rolling {
  import opened Rollout

  /** How many replicas of each version are live. */
  datatype Counts = Counts(olds: int, news: int)

  /** An update of n replicas, with the resolved maxSurge and maxUnavailable. */
  datatype Limits = Limits(n: nat, surge: int, unavailable: int) {
    function Ceiling(): int {
      n + surge
    }

    function Floor(): int {
      n - unavailable
    }
  }

  predicate Starts(l: Limits, a: Counts, b: Counts) {
    b == Counts(a.olds, a.news + 1) && b.news <= l.n && b.olds + b.news <= l.Ceiling()
  }

  predicate Stops(l: Limits, a: Counts, b: Counts) {
    b == Counts(a.olds - 1, a.news) && b.olds >= 0 && b.olds + b.news >= l.Floor()
  }

  /** The counts of an update so far: all replicas old at first, then one change at a time. */
  ghost predicate IsUpdate(l: Limits, run: seq<Counts>) {
    && run != [] && run[0] == Counts(l.n, 0)
    && forall i :: 0 <= i < |run| - 1 ==> Starts(l, run[i], run[i + 1]) || Stops(l, run[i], run[i + 1])
  }

  ghost predicate Reaches(l: Limits, c: Counts) {
    exists run :: IsUpdate(l, run) && run[|run| - 1] == c
  }

  predicate Overlaps(c: Counts) {
    c.olds > 0 && c.news > 0
  }

  ghost predicate MayOverlap(l: Limits) {
    exists c :: Reaches(l, c) && Overlaps(c)
  }

  // ---- what an update can reach ----

  lemma {:induction false} UpdateInvariant(l: Limits, run: seq<Counts>)
    requires IsUpdate(l, run)
    ensures var c := run[|run| - 1];
            && 0 <= c.olds <= l.n && 0 <= c.news <= l.n
            && (c.news == 0 && c.olds < l.n ==> c.olds >= l.Floor())
    decreases |run|
  {
    if |run| > 1 {
      UpdateInvariant(l, run[..|run| - 1]);
      assert run[|run| - 2] == run[..|run| - 1][|run| - 2];
    }
  }

  /** Before the first new replica started there were none, and as many old ones or more. */
  lemma {:induction false} FirstStart(l: Limits, run: seq<Counts>) returns (i: nat)
    requires IsUpdate(l, run) && run[|run| - 1].news > 0
    ensures i + 1 < |run| && run[i].news == 0 && Starts(l, run[i], run[i + 1])
    ensures run[|run| - 1].olds <= run[i].olds
    ensures IsUpdate(l, run[..i + 1])
    decreases |run|
  {
    var n := |run| - 1;
    assert run[n - 1] == run[..n][n - 1];
    if run[n - 1].news == 0 {
      i := n - 1;
    } else {
      i := FirstStart(l, run[..n]);
      assert run[..n][..i + 1] == run[..i + 1];
    }
  }

  function Drained(l: Limits, k: nat): seq<Counts> {
    seq(k + 1, i => Counts(l.n - i, 0))
  }

  lemma DrainIsUpdate(l: Limits, k: nat)
    requires k <= l.n && (k > 0 ==> l.n - k >= l.Floor())
    ensures IsUpdate(l, Drained(l, k)) && Drained(l, k)[k] == Counts(l.n - k, 0)
  {
  }

  lemma StartAfterDrain(l: Limits, k: nat)
    requires k <= l.n && (k > 0 ==> l.n - k >= l.Floor()) && l.n > 0 && l.n - k + 1 <= l.Ceiling()
    ensures Reaches(l, Counts(l.n - k, 1))
  {
    DrainIsUpdate(l, k);
    var run := Drained(l, k) + [Counts(l.n - k, 1)];
    assert IsUpdate(l, run);
  }

  /** A new replica can start beside all the old ones exactly when the ceiling admits one more. */
  lemma OneMoreExactly(l: Limits)
    requires l.n > 0
    ensures Reaches(l, Counts(l.n, 1)) <==> l.n + 1 <= l.Ceiling()
  {
    if run :| IsUpdate(l, run) && run[|run| - 1] == Counts(l.n, 1) {
      var i := FirstStart(l, run);
      UpdateInvariant(l, run[..i + 1]);
    }
    if l.n + 1 <= l.Ceiling() {
      StartAfterDrain(l, 0);
    }
  }

  /** Every replica can be stopped before a new one starts exactly when the floor admits none. */
  lemma NoneLeftExactly(l: Limits)
    requires l.n > 0
    ensures Reaches(l, Counts(0, 0)) <==> 0 >= l.Floor()
  {
    if run :| IsUpdate(l, run) && run[|run| - 1] == Counts(0, 0) {
      UpdateInvariant(l, run);
    }
    if 0 >= l.Floor() {
      DrainIsUpdate(l, l.n);
    }
  }

  /** Where the floor admits no empty moment, every update that gets a new replica overlaps on the way. */
  lemma FloorForcesOverlap(l: Limits, run: seq<Counts>) returns (i: nat)
    requires l.n > 0 && !Reaches(l, Counts(0, 0))
    requires IsUpdate(l, run) && run[|run| - 1].news > 0
    ensures i < |run| && Overlaps(run[i])
  {
    var k := FirstStart(l, run);
    UpdateInvariant(l, run[..k + 1]);
    NoneLeftExactly(l);
    i := k + 1;
  }

  /** Where it does, and no surge is allowed, an update can go from all old to all new without overlap. */
  lemma EmptyAvoidsOverlap(l: Limits) returns (run: seq<Counts>)
    requires l.n > 0 && Reaches(l, Counts(0, 0)) && l.surge >= 0
    ensures IsUpdate(l, run) && run[|run| - 1] == Counts(0, l.n)
    ensures forall i :: 0 <= i < |run| ==> !Overlaps(run[i])
  {
    NoneLeftExactly(l);
    run := seq(2 * l.n + 1, i => if i <= l.n then Counts(l.n - i, 0) else Counts(0, i - l.n));
  }

  // ---- what the source decides ----

  function LimitsOf(s: RolloutStrategy, n: nat): Limits {
    Limits(n, Resolve(s.maxSurge, n), Resolve(s.maxUnavailable, n))
  }

  /** maxSurge, as declared, admits a replica more than n. */
  predicate AdmitsOneMore(v: IntOrPercent, n: nat) {
    if v.isPercent then n * v.percent > 0 else v.intValue >= 1
  }

  /** maxUnavailable, as declared, lets all n be unavailable: fewer do not cover its share. */
  predicate AdmitsNone(v: IntOrPercent, n: nat) {
    if v.isPercent then !Covers(n - 1, n * v.percent) else v.intValue >= n
  }

  lemma DeclaredLimits(s: RolloutStrategy, n: nat)
    ensures AdmitsOneMore(s.maxSurge, n) <==> n + 1 <= LimitsOf(s, n).Ceiling()
    ensures AdmitsNone(s.maxUnavailable, n) <==> LimitsOf(s, n).Floor() <= 0
  {
  }

  /** The answer, read off the declared numbers and percentages. */
  lemma CoexistenceDeclared(s: RolloutStrategy, n: nat)
    ensures AllowsCoexistence(s, n) <==>
      s.typ == StrategyRollingUpdate && (AdmitsOneMore(s.maxSurge, n) || !AdmitsNone(s.maxUnavailable, n))
  {
    DeclaredLimits(s, n);
  }

  /**
   A rolling update of at least one replica is taken to coexist exactly when it can start a
   new replica beside all the old ones, or cannot be rid of the old ones first.
   */
  lemma CoexistenceExactly(s: RolloutStrategy, n: nat)
    requires s.typ == StrategyRollingUpdate && n > 0
    ensures AllowsCoexistence(s, n) <==> Reaches(LimitsOf(s, n), Counts(n, 1)) || !Reaches(LimitsOf(s, n), Counts(0, 0))
  {
    OneMoreExactly(LimitsOf(s, n));
    NoneLeftExactly(LimitsOf(s, n));
  }

  /** Whether an update can overlap at all, replica by replica. */
  lemma OverlapExactly(l: Limits)
    ensures MayOverlap(l) <==> l.n > 0 && (l.surge > 0 || (l.surge + l.unavailable >= 1 && l.n + l.surge >= 2))
  {
    if c :| Reaches(l, c) && Overlaps(c) {
      var run :| IsUpdate(l, run) && run[|run| - 1] == c;
      UpdateInvariant(l, run);
      var i := FirstStart(l, run);
      UpdateInvariant(l, run[..i + 1]);
    }
    if l.n > 0 && l.surge > 0 {
      StartAfterDrain(l, 0);
      assert Overlaps(Counts(l.n, 1));
    } else if l.n > 0 && l.surge + l.unavailable >= 1 && l.n + l.surge >= 2 {
      var k := 1 - l.surge;
      StartAfterDrain(l, k);
      assert Overlaps(Counts(l.n - k, 1));
    }
  }

  /**
   The answer is what its documentation says, whether old and new can ever be live
   together, unless it is a claimed overlap nothing can reach (no replica, or no room to
   start or stop one) or a missed one: all of two or more may be unavailable at once, and
   an update that stops them one by one overlaps before the last is gone.
   */
  lemma DocumentedExactly(s: RolloutStrategy, n: nat)
    requires s.typ == StrategyRollingUpdate
    ensures var l := LimitsOf(s, n);
            (AllowsCoexistence(s, n) <==> MayOverlap(l)) <==>
            if n == 0 then l.surge <= 0 && l.unavailable >= 0
            else l.surge > 0 || (if l.unavailable < n then l.surge + l.unavailable >= 1 else n + l.surge <= 1)
  {
    OverlapExactly(LimitsOf(s, n));
  }
}
