/** One round's scoring pass over the miners' EMAs, and the budget that may split a horizon into several passes. */
module Scoring {
  import opened Wrappers

  type Hotkey = string

  const ARCHIVE_EPSILON := 0.01

  datatype Coordinate = Coordinate(netuid: nat, horizon: int, output: string)

  /** How one output is scored: relative or absolute deviation, and which side of the target is aggressive. */
  datatype Spec = Spec(graceBand: int, cutoff: int, higherIsAggressive: bool, lenient: real, relative: bool)

  datatype Ema = Ema(value: real, rounds: nat)

  /** Each miner's EMA rows by coordinate; a miner without rows may be absent. */
  type Emas = map<Hotkey, map<Coordinate, Ema>>

  /** What stays fixed while a round is scored: its submissions, the miners accepted in it or before, all its
      coordinates, the coordinates that pay (none means every scored output pays), and the EMA factor. */
  datatype Round = Round(accepted: map<Hotkey, map<Coordinate, int>>, eligible: set<Hotkey>,
                         coordinates: set<Coordinate>,
                         active: Option<set<Coordinate>>, specs: map<string, Spec>, alpha: real)

  // -- one score -----------------------------------------------------------------

  function Abs(x: int): nat {
    if x < 0 then -x else x
  }

  function Magnitude(submitted: int, target: int, spec: Spec): real
    requires spec.relative ==> target != 0
  {
    var deviation := Abs(submitted - target) as real;
    if spec.relative then deviation / Abs(target) as real * 10000.0 else deviation
  }

  predicate Aggressive(submitted: int, target: int, spec: Spec) {
    if spec.higherIsAggressive then submitted > target else submitted < target
  }

  function Cutoff(aggressive: bool, spec: Spec): real {
    if aggressive then spec.cutoff as real else spec.cutoff as real * spec.lenient
  }

  /** From one at the grace band down to zero at the cutoff. */
  function Decay(magnitude: real, grace: real, cutoff: real): real {
    if magnitude <= grace then 1.0
    else if magnitude >= cutoff then 0.0
    else 1.0 - (magnitude - grace) / (cutoff - grace)
  }

  function DeviationScore(submitted: int, target: int, spec: Spec): real {
    if spec.relative && target == 0 then if submitted == target then 1.0 else 0.0
    else Decay(Magnitude(submitted, target, spec), spec.graceBand as real,
               Cutoff(Aggressive(submitted, target, spec), spec))
  }

  lemma SignKept(x: real, y: real)
    requires y > 0.0
    ensures (x > 0.0 <==> x * y > 0.0) && (x < 0.0 <==> x * y < 0.0)
  {
  }

  lemma Fraction(a: real, b: real)
    requires 0.0 < a < b
    ensures 0.0 < a / b < 1.0
  {
    var q := a / b;
    assert q * b == a;
    SignKept(q, b);
    SignKept(q - 1.0, b);
    assert (q - 1.0) * b == a - b;
  }

  lemma FractionGrows(a: real, b: real, c: real)
    requires a <= b && c > 0.0
    ensures a / c <= b / c
  {
    var p, q := a / c, b / c;
    assert p * c == a && q * c == b;
    SignKept(p - q, c);
    assert (p - q) * c == a - b;
  }

  lemma DecayRange(m: real, grace: real, cutoff: real)
    ensures 0.0 <= Decay(m, grace, cutoff) <= 1.0
  {
    if grace < m < cutoff {
      Fraction(m - grace, cutoff - grace);
    }
  }

  lemma DecayFalls(m: real, n: real, grace: real, cutoff: real)
    requires m <= n
    ensures Decay(n, grace, cutoff) <= Decay(m, grace, cutoff)
  {
    DecayRange(m, grace, cutoff);
    DecayRange(n, grace, cutoff);
    if grace < m && n < cutoff {
      var a, b, c := m - grace, n - grace, cutoff - grace;
      FractionGrows(a, b, c);
      assert Decay(m, grace, cutoff) == 1.0 - a / c;
      assert Decay(n, grace, cutoff) == 1.0 - b / c;
    }
  }

  lemma MagnitudeGrows(a: int, b: int, target: int, spec: Spec)
    requires Abs(a - target) <= Abs(b - target) && (spec.relative ==> target != 0)
    ensures Magnitude(a, target, spec) <= Magnitude(b, target, spec)
  {
    if spec.relative {
      FractionGrows(Abs(a - target) as real, Abs(b - target) as real, Abs(target) as real);
    }
  }

  /** A score lies between zero and one, and on one side of the target it never rises as a submission moves away. */
  lemma CloserScoresNoLess(a: int, b: int, target: int, spec: Spec)
    requires Abs(a - target) <= Abs(b - target) && Aggressive(a, target, spec) == Aggressive(b, target, spec)
    ensures 0.0 <= DeviationScore(b, target, spec) <= DeviationScore(a, target, spec) <= 1.0
  {
    if !(spec.relative && target == 0) {
      MagnitudeGrows(a, b, target, spec);
      var near, far := Magnitude(a, target, spec), Magnitude(b, target, spec);
      var grace, cutoff := spec.graceBand as real, Cutoff(Aggressive(a, target, spec), spec);
      DecayFalls(near, far, grace, cutoff);
      DecayRange(near, grace, cutoff);
      DecayRange(far, grace, cutoff);
    }
  }

  // -- one pass ---------------------------------------------------------------------

  function EmaUpdate(alpha: real, previous: real, observation: real): real {
    alpha * observation + (1.0 - alpha) * previous
  }

  predicate Pays(round: Round, c: Coordinate) {
    if round.active.Some? then c in round.active.value else c.output in round.specs
  }

  function RowsOf(emas: Emas, h: Hotkey): map<Coordinate, Ema> {
    if h in emas then emas[h] else map[]
  }

  /** The miners a pass scores: this round's, and those remembered on a coordinate that pays or is this round's. */
  predicate InScoringSet(round: Round, h: Hotkey, rows: map<Coordinate, Ema>) {
    h in round.accepted
    || (h in round.eligible && exists c | c in rows :: Pays(round, c) || c in round.coordinates)
  }

  function ScoreOf(round: Round, h: Hotkey, c: Coordinate, target: int): real {
    if h in round.accepted && c in round.accepted[h] && c.output in round.specs
    then DeviationScore(round.accepted[h][c], target, round.specs[c.output])
    else 0.0
  }

  function Observed(round: Round, h: Hotkey, rows: map<Coordinate, Ema>, c: Coordinate, target: int): Ema {
    var prior := if c in rows then rows[c] else Ema(0.0, 0);
    Ema(EmaUpdate(round.alpha, prior.value, ScoreOf(round, h, c, target)), prior.rounds + 1)
  }

  function Updates(round: Round, h: Hotkey, rows: map<Coordinate, Ema>, resolved: map<Coordinate, int>)
    : map<Coordinate, Ema>
  {
    map c | c in resolved :: Observed(round, h, rows, c, resolved[c])
  }

  /** Absent, given a zero on a paying coordinate, and below the threshold on every paying row. */
  predicate Pruned(round: Round, h: Hotkey, updated: map<Coordinate, Ema>, resolved: map<Coordinate, int>) {
    && h !in round.accepted
    && (exists c | c in resolved :: Pays(round, c))
    && (forall c | c in updated && Pays(round, c) :: updated[c].value < ARCHIVE_EPSILON)
  }

  function Retired(round: Round, rows: map<Coordinate, Ema>): map<Coordinate, Ema> {
    if round.active.None? then map[] else map c | c in rows && c !in round.active.value :: rows[c]
  }

  /** One miner's rows after one pass over the coordinates it resolved. */
  function MinerPass(round: Round, h: Hotkey, rows: map<Coordinate, Ema>, resolved: map<Coordinate, int>)
    : map<Coordinate, Ema>
  {
    if !InScoringSet(round, h, rows) then rows else
      var updated := rows + Updates(round, h, rows, resolved);
      if Pruned(round, h, updated, resolved) then Retired(round, updated) else updated
  }

  function Pass(round: Round, emas: Emas, resolved: map<Coordinate, int>): Emas {
    map h | h in emas.Keys + round.accepted.Keys :: MinerPass(round, h, RowsOf(emas, h), resolved)
  }

  lemma PassRows(round: Round, emas: Emas, resolved: map<Coordinate, int>, h: Hotkey)
    ensures RowsOf(Pass(round, emas, resolved), h) == MinerPass(round, h, RowsOf(emas, h), resolved)
  {
  }

  /** A scored miner that is not pruned takes exactly one observation on each resolved coordinate and none elsewhere. */
  lemma ObservedOnce(round: Round, h: Hotkey, rows: map<Coordinate, Ema>, resolved: map<Coordinate, int>, c: Coordinate)
    requires InScoringSet(round, h, rows) && !Pruned(round, h, rows + Updates(round, h, rows, resolved), resolved)
    ensures var after := MinerPass(round, h, rows, resolved);
      && (c in after <==> c in rows || c in resolved)
      && (c in after && c in resolved ==> after[c].rounds == (if c in rows then rows[c].rounds else 0) + 1)
      && (c in after && c !in resolved ==> after[c] == rows[c])
  {
  }

  method ApplyPass(round: Round, emas: Emas, resolved: map<Coordinate, int>) returns (r: Emas)
    ensures r == Pass(round, emas, resolved)
  {
    r := map[];
    var todo := emas.Keys + round.accepted.Keys;
    ghost var all := todo;
    while todo != {}
      invariant todo <= all && r.Keys == all - todo
      invariant forall h | h in r :: r[h] == MinerPass(round, h, RowsOf(emas, h), resolved)
      decreases todo
    {
      var h :| h in todo;
      var rows := RowsOf(emas, h);
      if InScoringSet(round, h, rows) {
        var updated := ObserveAll(round, h, rows, resolved);
        rows := if Pruned(round, h, updated, resolved) then Retired(round, updated) else updated;
      }
      r := r[h := rows];
      todo := todo - {h};
    }
  }

  method ObserveAll(round: Round, h: Hotkey, rows: map<Coordinate, Ema>, resolved: map<Coordinate, int>)
    returns (updated: map<Coordinate, Ema>)
    ensures updated == rows + Updates(round, h, rows, resolved)
  {
    updated := rows;
    var todo := resolved.Keys;
    while todo != {}
      invariant todo <= resolved.Keys
      invariant updated == rows + map c | c in resolved && c !in todo :: Observed(round, h, rows, c, resolved[c])
      decreases todo
    {
      var c :| c in todo;
      updated := updated[c := Observed(round, h, rows, c, resolved[c])];
      todo := todo - {c};
    }
  }

  // -- resolving a horizon under a budget ----------------------------------------------

  datatype Answer = Pending | Voided | Resolved(value: int)

  /** The budget of one tick: whether it is spent on entry, and how many resolver calls it then allows. */
  datatype Budget = Budget(spentOnEntry: bool, calls: nat)

  datatype Horizon = Horizon(targets: map<Coordinate, Option<int>>, marked: bool, emas: Emas)

  predicate Answers(order: seq<Coordinate>, answers: map<Coordinate, Answer>) {
    forall i | 0 <= i < |order| :: order[i] in answers
  }

  /** The coordinates this pass settles: in order, skipping those already stored, until the budget is used up. */
  function NewTargets(order: seq<Coordinate>, existing: set<Coordinate>, answers: map<Coordinate, Answer>, calls: nat)
    : map<Coordinate, Option<int>>
    requires Answers(order, answers)
    decreases |order|
  {
    if order == [] then map[]
    else if order[0] in existing then NewTargets(order[1..], existing, answers, calls)
    else if calls == 0 then map[]
    else
      var rest := NewTargets(order[1..], existing, answers, calls - 1);
      match answers[order[0]]
      case Pending => rest
      case Voided => rest[order[0] := None]
      case Resolved(v) => rest[order[0] := Some(v)]
  }

  function ResolvedOf(targets: map<Coordinate, Option<int>>): map<Coordinate, int> {
    map c | c in targets && targets[c].Some? :: targets[c].value
  }

  /** One call of resolve_and_score. */
  function HorizonPass(round: Round, order: seq<Coordinate>, answers: map<Coordinate, Answer>, s: Horizon, b: Budget)
    : Horizon
    requires Answers(order, answers)
  {
    if s.marked || b.spentOnEntry then s else
      var settled := NewTargets(order, s.targets.Keys, answers, b.calls);
      Horizon(s.targets + settled, forall c | c in order :: c in s.targets || c in settled,
              Pass(round, s.emas, ResolvedOf(settled)))
  }

  method ResolveTargets(order: seq<Coordinate>, existing: set<Coordinate>, answers: map<Coordinate, Answer>, calls: nat)
    returns (settled: map<Coordinate, Option<int>>)
    requires Answers(order, answers) && forall i, j | 0 <= i < j < |order| :: order[i] != order[j]
    ensures settled == NewTargets(order, existing, answers, calls)
  {
    settled := map[];
    var left := calls;
    ghost var target := NewTargets(order, existing, answers, calls);
    for i := 0 to |order|
      invariant Answers(order[i..], answers)
      invariant settled.Keys !! (set c | c in order[i..])
      invariant settled + NewTargets(order[i..], existing, answers, left) == target
    {
      var c := order[i];
      var rest := order[i + 1..];
      assert order[i..][1..] == rest && order[i..][0] == c;
      NewTargetsWithin(rest, existing, answers, if left > 0 then left - 1 else 0);
      if c in existing {
        continue;
      }
      if left == 0 {
        return;
      }
      left := left - 1;
      ghost var later := NewTargets(rest, existing, answers, left);
      ghost var before := settled;
      match answers[c] {
        case Pending =>
        case Voided =>
          settled := settled[c := None];
          PutFirst(before, later, c, None);
        case Resolved(v) =>
          settled := settled[c := Some(v)];
          PutFirst(before, later, c, Some(v));
      }
    }
  }

  lemma PutFirst(a: map<Coordinate, Option<int>>, b: map<Coordinate, Option<int>>, c: Coordinate, v: Option<int>)
    requires c !in b
    ensures a + b[c := v] == a[c := v] + b
  {
  }

  lemma {:induction false} NewTargetsWithin(order: seq<Coordinate>, existing: set<Coordinate>,
                                            answers: map<Coordinate, Answer>, calls: nat)
    requires Answers(order, answers)
    ensures forall c | c in NewTargets(order, existing, answers, calls) :: c in order && c !in existing
    ensures forall c | c in NewTargets(order, existing, answers, calls) ::
      answers[c] == match NewTargets(order, existing, answers, calls)[c] case None => Voided case Some(v) => Resolved(v)
    decreases |order|
  {
    if order != [] {
      NewTargetsWithin(order[1..], existing, answers, calls);
      if calls > 0 {
        NewTargetsWithin(order[1..], existing, answers, calls - 1);
      }
    }
  }

  /** The stored part of one round's horizon, and the call that moves it on. */
  class Orchestrator {
    const round: Round
    const order: seq<Coordinate>
    var targets: map<Coordinate, Option<int>>
    var marked: bool
    var emas: Emas

    ghost predicate Valid() {
      forall i, j | 0 <= i < j < |order| :: order[i] != order[j]
    }

    ghost function Stored(): Horizon
      reads this
    {
      Horizon(targets, marked, emas)
    }

    constructor (round: Round, order: seq<Coordinate>, emas: Emas)
      requires forall i, j | 0 <= i < j < |order| :: order[i] != order[j]
      ensures Valid() && this.round == round && this.order == order && Stored() == Horizon(map[], false, emas)
    {
      this.round, this.order, this.emas := round, order, emas;
      targets, marked := map[], false;
    }

    method ResolveAndScore(answers: map<Coordinate, Answer>, budget: Budget)
      requires Valid() && Answers(order, answers)
      modifies this`targets, this`marked, this`emas
      ensures Stored() == HorizonPass(round, order, answers, old(Stored()), budget)
    {
      if marked || budget.spentOnEntry {
        return;
      }
      var settled := ResolveTargets(order, targets.Keys, answers, budget.calls);
      var complete := forall c | c in order :: c in targets || c in settled;
      var resolved := ResolvedOf(settled);
      emas := ApplyPass(round, emas, resolved);
      targets, marked := targets + settled, complete;
    }
  }
}
