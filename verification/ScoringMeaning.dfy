/** What a pass's observations are worth, and what a run of passes makes of an EMA. */
module ScoringMeaning {
  import opened Wrappers
  import opened Scoring
  import opened ScoringSplit
  import opened ScoringBudget

  // -- one observation --------------------------------------------------------------------

  /** The deviation and a bound on it, both times the target when the schema scores relative deviations in basis
      points. */
  ghost function Deviation(submitted: int, target: int, spec: Spec): real {
    var off := if submitted >= target then submitted - target else target - submitted;
    if spec.relative then (off * 10_000) as real else off as real
  }

  ghost function Bound(limit: real, target: int, spec: Spec): real {
    if spec.relative then limit * (if target >= 0 then target else -target) as real else limit
  }

  /** How far off a submission may be before it is worth nothing: less on the aggressive side. */
  ghost function Farthest(submitted: int, target: int, spec: Spec): real {
    var aggressive := if spec.higherIsAggressive then submitted > target else submitted < target;
    Bound(if aggressive then spec.cutoff as real else spec.cutoff as real * spec.lenient, target, spec)
  }

  /** A submission is worth one within the grace band, nothing from its side's cutoff on, and between the two it falls
      off evenly. A relative deviation from a target of zero is none or beyond every cutoff. */
  ghost predicate Worth(submitted: int, target: int, spec: Spec, x: real) {
    if spec.relative && target == 0 then x == if submitted == target then 1.0 else 0.0
    else FallsOff(Deviation(submitted, target, spec), Bound(spec.graceBand as real, target, spec),
                  Farthest(submitted, target, spec), x)
  }

  ghost predicate FallsOff(off: real, grace: real, far: real, x: real) {
    if off <= grace then x == 1.0
    else if off >= far then x == 0.0
    else x * (far - grace) == far - off
  }

  /** What the round observes of the miner on a coordinate: the worth of its submission, and nothing without one. */
  ghost predicate Observes(round: Round, h: Hotkey, c: Coordinate, target: int, x: real) {
    if h in round.accepted && c in round.accepted[h] && c.output in round.specs
    then Worth(round.accepted[h][c], target, round.specs[c.output], x)
    else x == 0.0
  }

  lemma DecayFallsOff(m: real, grace: real, far: real)
    ensures FallsOff(m, grace, far, Decay(m, grace, far))
  {
    if grace < m < far {
      var q := (m - grace) / (far - grace);
      assert q * (far - grace) == m - grace;
      Complement(q, far - grace, m - grace);
    }
  }

  lemma Complement(q: real, width: real, part: real)
    requires q * width == part
    ensures (1.0 - q) * width == width - part
  {
  }

  lemma SameOrder(a: real, b: real, unit: real)
    requires unit > 0.0
    ensures a <= b <==> a * unit <= b * unit
  {
    SignKept(a - b, unit);
    assert (a - b) * unit == a * unit - b * unit;
  }

  lemma ScaledFall(x: real, width: real, rest: real, unit: real)
    requires x * width == rest
    ensures x * (width * unit) == rest * unit
  {
    assert x * (width * unit) == (x * width) * unit;
  }

  /** Measuring everything in another unit changes no worth. */
  lemma FallsOffScaled(off: real, grace: real, far: real, x: real, unit: real)
    requires FallsOff(off, grace, far, x) && unit > 0.0
    ensures FallsOff(off * unit, grace * unit, far * unit, x)
  {
    SameOrder(off, grace, unit);
    SameOrder(far, off, unit);
    if grace < off < far {
      ScaledFall(x, far - grace, far - off, unit);
      assert (far - grace) * unit == far * unit - grace * unit;
      assert (far - off) * unit == far * unit - off * unit;
    }
  }

  lemma BasisPoints(off: int, unit: int)
    requires unit > 0
    ensures (off as real / unit as real * 10000.0) * unit as real == (off * 10_000) as real
  {
    var q := off as real / unit as real;
    assert q * unit as real == off as real;
    assert (q * 10000.0) * unit as real == (q * unit as real) * 10000.0;
  }

  lemma RelativeDeviation(submitted: int, target: int, spec: Spec)
    requires spec.relative && target != 0
    ensures Magnitude(submitted, target, spec) * Abs(target) as real == Deviation(submitted, target, spec)
  {
    BasisPoints(Abs(submitted - target), Abs(target));
  }

  lemma RelativeBound(limit: real, target: int, spec: Spec)
    requires spec.relative
    ensures Bound(limit, target, spec) == limit * Abs(target) as real
  {
  }

  lemma FallsOffMeasured(off: real, grace: real, far: real, x: real, unit: real, off2: real, grace2: real, far2: real)
    requires FallsOff(off, grace, far, x) && unit > 0.0
    requires off2 == off * unit && grace2 == grace * unit && far2 == far * unit
    ensures FallsOff(off2, grace2, far2, x)
  {
    FallsOffScaled(off, grace, far, x, unit);
  }

  lemma RelativeTerms(submitted: int, target: int, spec: Spec, m: real, far: real, unit: real)
    requires spec.relative && target != 0 && m == Magnitude(submitted, target, spec) && unit == Abs(target) as real
    requires far == Cutoff(Aggressive(submitted, target, spec), spec)
    ensures Deviation(submitted, target, spec) == m * unit
    ensures Bound(spec.graceBand as real, target, spec) == spec.graceBand as real * unit
    ensures Farthest(submitted, target, spec) == far * unit
  {
    RelativeDeviation(submitted, target, spec);
    RelativeBound(spec.graceBand as real, target, spec);
    RelativeBound(far, target, spec);
  }

  lemma RelativeWorth(submitted: int, target: int, spec: Spec, m: real, far: real, unit: real, x: real)
    requires spec.relative && target != 0 && m == Magnitude(submitted, target, spec) && unit == Abs(target) as real
    requires far == Cutoff(Aggressive(submitted, target, spec), spec) && FallsOff(m, spec.graceBand as real, far, x)
    ensures Worth(submitted, target, spec, x)
  {
    RelativeTerms(submitted, target, spec, m, far, unit);
    FallsOffMeasured(m, spec.graceBand as real, far, x, unit, Deviation(submitted, target, spec),
                     Bound(spec.graceBand as real, target, spec), Farthest(submitted, target, spec));
  }

  lemma ScoreIsWorth(submitted: int, target: int, spec: Spec)
    ensures Worth(submitted, target, spec, DeviationScore(submitted, target, spec))
  {
    if !(spec.relative && target == 0) {
      var m, far := Magnitude(submitted, target, spec), Cutoff(Aggressive(submitted, target, spec), spec);
      DecayFallsOff(m, spec.graceBand as real, far);
      if spec.relative {
        RelativeWorth(submitted, target, spec, m, far, Abs(target) as real, DeviationScore(submitted, target, spec));
      }
    }
  }

  lemma FallsOffUnique(off: real, grace: real, far: real, x: real, y: real)
    requires FallsOff(off, grace, far, x) && FallsOff(off, grace, far, y)
    ensures x == y
  {
    if grace < off < far {
      SignKept(x - y, far - grace);
      SignKept(y - x, far - grace);
      assert (x - y) * (far - grace) == x * (far - grace) - y * (far - grace);
    }
  }

  /** What the round observes is one number: the score. */
  lemma ObservesScore(round: Round, h: Hotkey, c: Coordinate, target: int, x: real)
    requires Observes(round, h, c, target, x)
    ensures ScoreOf(round, h, c, target) == x
  {
    if h in round.accepted && c in round.accepted[h] && c.output in round.specs {
      var submitted, spec := round.accepted[h][c], round.specs[c.output];
      ScoreIsWorth(submitted, target, spec);
      if !(spec.relative && target == 0) {
        FallsOffUnique(Deviation(submitted, target, spec), Bound(spec.graceBand as real, target, spec),
                       Farthest(submitted, target, spec), x, DeviationScore(submitted, target, spec));
      }
    }
  }

  // -- one pass ------------------------------------------------------------------------------

  function ValueOf(rows: Rows, c: Coordinate): real {
    if c in rows then rows[c].value else 0.0
  }

  /** A scored miner that a pass does not prune. */
  ghost predicate TakesPart(round: Round, h: Hotkey, rows: Rows, resolved: Targets) {
    InScoringSet(round, h, rows) && !Pruned(round, h, rows + Updates(round, h, rows, resolved), resolved)
  }

  /** From what it was, the share `alpha` of the way to `x`. */
  ghost predicate Moves(alpha: real, was: real, x: real, now: real) {
    now == was + alpha * (x - was)
  }

  lemma UpdateMoves(alpha: real, was: real, x: real)
    ensures Moves(alpha, was, x, EmaUpdate(alpha, was, x))
  {
    assert (1.0 - alpha) * was == was - alpha * was;
    assert alpha * (x - was) == alpha * x - alpha * was;
  }

  lemma ObservedMoves(round: Round, h: Hotkey, rows: Rows, c: Coordinate, target: int, x: real)
    requires Observes(round, h, c, target, x)
    ensures Moves(round.alpha, ValueOf(rows, c), x, Observed(round, h, rows, c, target).value)
  {
    ObservesScore(round, h, c, target, x);
    UpdateMoves(round.alpha, ValueOf(rows, c), x);
  }

  lemma PassObserves(round: Round, h: Hotkey, rows: Rows, resolved: Targets, c: Coordinate)
    requires TakesPart(round, h, rows, resolved) && c in resolved
    ensures var after := MinerPass(round, h, rows, resolved);
      c in after && after[c] == Observed(round, h, rows, c, resolved[c])
  {
  }

  /** One pass moves the miner's EMA on each resolved coordinate from what it was, or nothing, toward what it observes,
      by the share `alpha` of the way. */
  lemma PassMoves(round: Round, h: Hotkey, rows: Rows, resolved: Targets, c: Coordinate, x: real)
    requires TakesPart(round, h, rows, resolved) && c in resolved && Observes(round, h, c, resolved[c], x)
    ensures Moves(round.alpha, ValueOf(rows, c), x, ValueOf(MinerPass(round, h, rows, resolved), c))
  {
    PassObserves(round, h, rows, resolved, c);
    ObservedMoves(round, h, rows, c, resolved[c], x);
  }

  // -- who is scored, and who is forgotten ---------------------------------------------------

  /** A coordinate pays if its schema names it among the active ones, or names none and scores its output. */
  ghost predicate Paying(round: Round, c: Coordinate) {
    (round.active.Some? && c in round.active.value) || (round.active.None? && c.output in round.specs)
  }

  /** The round's own miners are scored, and so are the eligible ones with a row that pays or is of this round. */
  ghost predicate Scored(round: Round, h: Hotkey, rows: Rows) {
    || h in round.accepted.Keys
    || (h in round.eligible && exists c | c in rows.Keys :: Paying(round, c) || c in round.coordinates)
  }

  /** What an absent miner's row is worth after the pass. */
  ghost function Decayed(round: Round, rows: Rows, resolved: Targets, c: Coordinate): real {
    if c in resolved then ValueOf(rows, c) - round.alpha * ValueOf(rows, c) else ValueOf(rows, c)
  }

  /** An absent miner that a pass observes on a paying coordinate, and that is then under a hundredth on every one. */
  ghost predicate Forgettable(round: Round, h: Hotkey, rows: Rows, resolved: Targets) {
    && h !in round.accepted.Keys && (exists c | c in resolved.Keys :: Paying(round, c))
    && (forall c | c in rows.Keys + resolved.Keys && Paying(round, c) :: Decayed(round, rows, resolved, c) < 0.01)
  }

  lemma AbsentDecays(round: Round, h: Hotkey, rows: Rows, resolved: Targets, c: Coordinate)
    requires h !in round.accepted.Keys && c in rows.Keys + resolved.Keys
    ensures var updated := rows + Updates(round, h, rows, resolved);
      c in updated && updated[c].value == Decayed(round, rows, resolved, c)
  {
    if c in resolved {
      ObservedMoves(round, h, rows, c, resolved[c], 0.0);
    }
  }

  lemma PrunedIsForgettable(round: Round, h: Hotkey, rows: Rows, resolved: Targets)
    ensures Pruned(round, h, rows + Updates(round, h, rows, resolved), resolved)
        <==> Forgettable(round, h, rows, resolved)
  {
    if h !in round.accepted.Keys {
      forall c | c in rows.Keys + resolved.Keys
        ensures (rows + Updates(round, h, rows, resolved))[c].value == Decayed(round, rows, resolved, c)
      {
        AbsentDecays(round, h, rows, resolved, c);
      }
      assert forall c :: Pays(round, c) <==> Paying(round, c);
    }
  }

  /** Which rows a pass leaves: those it had and those it resolved, for a scored miner; of a miner it may forget, only
      those on coordinates that no longer pay, if the schema names the ones that do; and all as they were for any
      other. */
  lemma PassLeaves(round: Round, h: Hotkey, rows: Rows, resolved: Targets, c: Coordinate)
    ensures var after := MinerPass(round, h, rows, resolved);
      && (!Scored(round, h, rows) ==> after == rows)
      && (Scored(round, h, rows) ==>
            (c in after <==>
               && c in rows.Keys + resolved.Keys
               && (Forgettable(round, h, rows, resolved) ==> round.active.Some? && c !in round.active.value)))
  {
    PrunedIsForgettable(round, h, rows, resolved);
    assert Scored(round, h, rows) <==> InScoringSet(round, h, rows) by {
      assert forall d :: Pays(round, d) <==> Paying(round, d);
    }
  }

  // -- many passes -----------------------------------------------------------------------------

  datatype OnePass = OnePass(round: Round, resolved: Targets)

  ghost function AfterPasses(h: Hotkey, rows: Rows, passes: seq<OnePass>): Rows
    decreases |passes|
  {
    if passes == [] then rows else
      var n := |passes| - 1;
      MinerPass(passes[n].round, h, AfterPasses(h, rows, passes[..n]), passes[n].resolved)
  }

  /** Every pass resolves the coordinate, at one factor, with the miner taking part, and observes `x` of it. */
  ghost predicate AllObserve(h: Hotkey, rows: Rows, passes: seq<OnePass>, c: Coordinate, alpha: real, x: real)
    decreases |passes|
  {
    passes == [] ||
    var n := |passes| - 1;
    var last := passes[n];
    && AllObserve(h, rows, passes[..n], c, alpha, x)
    && TakesPart(last.round, h, AfterPasses(h, rows, passes[..n]), last.resolved)
    && last.round.alpha == alpha && c in last.resolved && Observes(last.round, h, c, last.resolved[c], x)
  }

  function Power(k: real, n: nat): real {
    if n == 0 then 1.0 else Power(k, n - 1) * k
  }

  /** `left` is the part `power` of the distance `d`. */
  ghost predicate Part(power: real, d: real, left: real) {
    left == power * d
  }

  lemma StepToward(alpha: real, was: real, now: real, d: real, x: real, power: real)
    requires Part(power, d, was - x) && Moves(alpha, was, x, now)
    ensures Part(power * (1.0 - alpha), d, now - x)
  {
    var k := 1.0 - alpha;
    assert alpha * (x - was) == alpha * x - alpha * was;
    assert k * (was - x) == (was - x) - alpha * (was - x);
    assert now - x == k * (was - x);
    assert k * (power * d) == (power * k) * d;
  }

  lemma LastMoves(h: Hotkey, rows: Rows, passes: seq<OnePass>, c: Coordinate, alpha: real, x: real)
    requires passes != [] && AllObserve(h, rows, passes, c, alpha, x)
    ensures var front := passes[..|passes| - 1];
      && AllObserve(h, rows, front, c, alpha, x)
      && Moves(alpha, ValueOf(AfterPasses(h, rows, front), c), x, ValueOf(AfterPasses(h, rows, passes), c))
  {
    var last := passes[|passes| - 1];
    PassMoves(last.round, h, AfterPasses(h, rows, passes[..|passes| - 1]), last.resolved, c, x);
  }

  /** The values along the passes. */
  lemma {:induction false} Trace(h: Hotkey, rows: Rows, passes: seq<OnePass>, c: Coordinate, alpha: real, x: real)
    returns (values: seq<real>)
    requires AllObserve(h, rows, passes, c, alpha, x)
    ensures |values| == |passes| + 1 && values[0] == ValueOf(rows, c)
    ensures values[|passes|] == ValueOf(AfterPasses(h, rows, passes), c)
    ensures forall k | 0 <= k < |passes| :: Moves(alpha, values[k], x, values[k + 1])
    decreases |passes|
  {
    if passes == [] {
      values := [ValueOf(rows, c)];
    } else {
      LastMoves(h, rows, passes, c, alpha, x);
      var before := Trace(h, rows, passes[..|passes| - 1], c, alpha, x);
      values := before + [ValueOf(AfterPasses(h, rows, passes), c)];
    }
  }

  lemma {:induction false} TraceLeaves(values: seq<real>, alpha: real, x: real, n: nat)
    requires n < |values| && forall k | 0 <= k < |values| - 1 :: Moves(alpha, values[k], x, values[k + 1])
    ensures Part(Power(1.0 - alpha, n), values[0] - x, values[n] - x)
  {
    if n > 0 {
      TraceLeaves(values, alpha, x, n - 1);
      assert Moves(alpha, values[n - 1], x, values[n - 1 + 1]);
      StepToward(alpha, values[n - 1], values[n], values[0] - x, x, Power(1.0 - alpha, n - 1));
    }
  }

  /** After n passes that observe the same, what is left of the distance to it is `(1 - alpha)` to the n. */
  lemma DistanceLeft(h: Hotkey, rows: Rows, passes: seq<OnePass>, c: Coordinate, alpha: real, x: real)
    requires AllObserve(h, rows, passes, c, alpha, x)
    ensures Part(Power(1.0 - alpha, |passes|), ValueOf(rows, c) - x, ValueOf(AfterPasses(h, rows, passes), c) - x)
  {
    var values := Trace(h, rows, passes, c, alpha, x);
    TraceLeaves(values, alpha, x, |passes|);
  }

  lemma PartOfOne(power: real, left: real)
    requires Part(power, 0.0 - 1.0, left)
    ensures left == -power
  {
  }

  /** From nothing, n passes that observe one leave all but `(1 - alpha)` to the n. */
  lemma PerfectFromNothing(h: Hotkey, rows: Rows, passes: seq<OnePass>, c: Coordinate, alpha: real)
    requires AllObserve(h, rows, passes, c, alpha, 1.0) && c !in rows
    ensures ValueOf(AfterPasses(h, rows, passes), c) == 1.0 - Power(1.0 - alpha, |passes|)
  {
    DistanceLeft(h, rows, passes, c, alpha, 1.0);
    PartOfOne(Power(1.0 - alpha, |passes|), ValueOf(AfterPasses(h, rows, passes), c) - 1.0);
  }

  lemma HalfPart(power: real, d: real, left: real)
    requires Part(power, d, left) && power == 0.5
    ensures left == d / 2.0
  {
  }

  /** A miner that is absent, or worth nothing, keeps `(1 - alpha)` to the n of its EMA, and half of it after as many
      passes as it takes that factor to halve. */
  lemma ZerosHalve(h: Hotkey, rows: Rows, passes: seq<OnePass>, c: Coordinate, alpha: real)
    requires AllObserve(h, rows, passes, c, alpha, 0.0)
    ensures Part(Power(1.0 - alpha, |passes|), ValueOf(rows, c), ValueOf(AfterPasses(h, rows, passes), c))
    ensures Power(1.0 - alpha, |passes|) == 0.5 ==> ValueOf(AfterPasses(h, rows, passes), c) == ValueOf(rows, c) / 2.0
  {
    DistanceLeft(h, rows, passes, c, alpha, 0.0);
    if Power(1.0 - alpha, |passes|) == 0.5 {
      HalfPart(Power(1.0 - alpha, |passes|), ValueOf(rows, c), ValueOf(AfterPasses(h, rows, passes), c));
    }
  }

  // -- the ticks of a round ---------------------------------------------------------------------

  /** Over all the ticks of a round, a scored miner that none of them prunes is moved once toward what it is worth, on
      each coordinate resolved. */
  lemma TicksMoveOnce(round: Round, orders: Orders, start: Emas, ticks: seq<Tick>, h: Hotkey, c: Coordinate, x: real)
    requires GoodTicks(orders, ticks) && OrdersOf(round, orders) && InScoringSet(round, h, RowsOf(start, h))
    requires forall k: nat {:trigger PrunesAt(round, orders, start, ticks, h, k)} ::
      !PrunesAt(round, orders, start, ticks, h, k)
    requires var resolved := ResolvedOf(RunTicks(round, orders, start, ticks).targets);
      c in resolved && Observes(round, h, c, resolved[c], x)
    ensures var after := RunTicks(round, orders, start, ticks);
      Moves(round.alpha, ValueOf(RowsOf(start, h), c), x, ValueOf(RowsOf(after.emas, h), c))
  {
    ObservedOncePerRound(round, orders, start, ticks, h, c);
    ObservedMoves(round, h, RowsOf(start, h), c, ResolvedOf(RunTicks(round, orders, start, ticks).targets)[c], x);
  }

  // -- what a tick settles ------------------------------------------------------------------------

  /** How many of the coordinates before position `i` had no target stored. */
  ghost function NewBefore(order: seq<Coordinate>, existing: set<Coordinate>, i: nat): nat
    requires i <= |order|
  {
    if i == 0 then 0 else NewBefore(order, existing, i - 1) + if order[i - 1] in existing then 0 else 1
  }

  lemma {:induction false} NewBeforeTail(order: seq<Coordinate>, existing: set<Coordinate>, i: nat)
    requires 0 < i <= |order|
    ensures NewBefore(order, existing, i)
         == NewBefore(order[1..], existing, i - 1) + if order[0] in existing then 0 else 1
  {
    if i > 1 {
      NewBeforeTail(order, existing, i - 1);
    }
  }

  ghost predicate DistinctOrder(order: seq<Coordinate>) {
    forall i, j | 0 <= i < j < |order| :: order[i] != order[j]
  }

  /** A tick with budget for so many resolver calls settles a coordinate if and only if it had no target, fewer than
      that many before it had none, and its resolver does not leave it pending; and stores exactly the answer. */
  lemma {:induction false} SettlesExactly(order: seq<Coordinate>, existing: set<Coordinate>,
                                          answers: map<Coordinate, Answer>, calls: nat, i: nat)
    requires Answers(order, answers) && DistinctOrder(order) && i < |order|
    ensures var settled, c := NewTargets(order, existing, answers, calls), order[i];
      && (c in settled <==>
            c !in existing && NewBefore(order, existing, i) < calls && answers[c] != Pending)
      && (c in settled ==> answers[c] == if settled[c].None? then Voided else Resolved(settled[c].value))
    decreases |order|
  {
    var left := if order[0] in existing || calls == 0 then calls else calls - 1;
    NewTargetsWithin(order[1..], existing, answers, left);
    if i == 0 {
      assert order[0] !in order[1..];
    } else {
      assert order[1..][i - 1] == order[i] != order[0];
      NewBeforeTail(order, existing, i);
      SettlesExactly(order[1..], existing, answers, left, i - 1);
    }
  }

  /** A call does nothing once the horizon is marked or the budget spent; else it marks the horizon exactly when every
      coordinate then has a target, and keeps the targets that were stored. */
  lemma MarksExactly(round: Round, order: seq<Coordinate>, answers: map<Coordinate, Answer>, s: Horizon, b: Budget)
    requires Answers(order, answers)
    ensures var after := HorizonPass(round, order, answers, s, b);
      && (s.marked || b.spentOnEntry ==> after == s)
      && (after.marked <==> s.marked || (!b.spentOnEntry && forall c | c in order :: c in after.targets.Keys))
      && (forall c | c in s.targets :: c in after.targets && after.targets[c] == s.targets[c])
  {
    if !s.marked && !b.spentOnEntry {
      NewTargetsWithin(order, s.targets.Keys, answers, b.calls);
    }
  }
}
