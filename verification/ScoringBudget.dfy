/** A round's horizons resolved tick by tick under budgets, in any interleaving, against one pass over their targets. */
module ScoringBudget {
  import opened Wrappers
  import opened Scoring
  import opened ScoringSplit

  /** One tick's call for one horizon: its budget, and what the resolvers would answer during it. */
  datatype Tick = Tick(horizon: int, budget: Budget, answers: map<Coordinate, Answer>)

  /** What is stored of one round: its targets, its marked horizons, and the miners' EMAs. */
  datatype Stored = Stored(targets: map<Coordinate, Option<int>>, marked: set<int>, emas: Emas)

  /** Each horizon's coordinates in the order they are resolved. */
  type Orders = map<int, seq<Coordinate>>

  ghost predicate GoodTick(orders: Orders, t: Tick) {
    t.horizon in orders && Answers(orders[t.horizon], t.answers)
  }

  ghost predicate GoodTicks(orders: Orders, ticks: seq<Tick>) {
    forall i | 0 <= i < |ticks| :: GoodTick(orders, ticks[i])
  }

  ghost predicate OrdersOf(round: Round, orders: Orders) {
    forall z, c | z in orders && c in orders[z] :: c in round.coordinates
  }

  ghost function RunTick(round: Round, orders: Orders, s: Stored, t: Tick): Stored
    requires GoodTick(orders, t)
  {
    var r := HorizonPass(round, orders[t.horizon], t.answers, Horizon(s.targets, t.horizon in s.marked, s.emas),
                         t.budget);
    Stored(r.targets, if r.marked then s.marked + {t.horizon} else s.marked, r.emas)
  }

  ghost function RunTicks(round: Round, orders: Orders, start: Emas, ticks: seq<Tick>): Stored
    requires GoodTicks(orders, ticks)
    decreases |ticks|
  {
    if ticks == [] then Stored(map[], {}, start) else
      var n := |ticks| - 1;
      RunTick(round, orders, RunTicks(round, orders, start, ticks[..n]), ticks[n])
  }

  /** What a tick settles, and the resolved part its pass scores. */
  ghost function SettledBy(orders: Orders, s: Stored, t: Tick): map<Coordinate, Option<int>>
    requires GoodTick(orders, t)
  {
    if t.horizon in s.marked || t.budget.spentOnEntry then map[]
    else NewTargets(orders[t.horizon], s.targets.Keys, t.answers, t.budget.calls)
  }

  ghost function Chunk(orders: Orders, s: Stored, t: Tick): Targets
    requires GoodTick(orders, t)
  {
    ResolvedOf(SettledBy(orders, s, t))
  }

  ghost function ChunksOf(round: Round, orders: Orders, start: Emas, ticks: seq<Tick>): (r: seq<Targets>)
    requires GoodTicks(orders, ticks)
    ensures |r| == |ticks|
    decreases |ticks|
  {
    if ticks == [] then [] else
      var n := |ticks| - 1;
      ChunksOf(round, orders, start, ticks[..n]) + [Chunk(orders, RunTicks(round, orders, start, ticks[..n]), ticks[n])]
  }

  // -- a run of ticks is a run of passes ---------------------------------------------------

  lemma TickSettles(round: Round, orders: Orders, s: Stored, t: Tick, h: Hotkey)
    requires GoodTick(orders, t) && OrdersOf(round, orders)
    ensures var more, after := SettledBy(orders, s, t), RunTick(round, orders, s, t);
      && more.Keys <= round.coordinates && more.Keys !! s.targets.Keys
      && after.targets == s.targets + more
      && RowsOf(after.emas, h) == MinerPass(round, h, RowsOf(s.emas, h), ResolvedOf(more))
  {
    var more := SettledBy(orders, s, t);
    if t.horizon in s.marked || t.budget.spentOnEntry {
      assert s.targets + more == s.targets;
      assert ResolvedOf(more) == map[];
      PassOverNothing(round, h, RowsOf(s.emas, h));
    } else {
      NewTargetsWithin(orders[t.horizon], s.targets.Keys, t.answers, t.budget.calls);
      PassRows(round, s.emas, ResolvedOf(more), h);
    }
  }

  lemma ResolvedOfMore(targets: map<Coordinate, Option<int>>, more: map<Coordinate, Option<int>>)
    requires targets.Keys !! more.Keys
    ensures ResolvedOf(targets + more) == ResolvedOf(targets) + ResolvedOf(more)
    ensures ResolvedOf(targets).Keys !! ResolvedOf(more).Keys
  {
  }

  lemma OneMoreChunk(round: Round, h: Hotkey, rows: Rows, chunks: seq<Targets>, chunk: Targets)
    requires Chunks(round, chunks) && OfRound(round, chunk) && Union(chunks).Keys !! chunk.Keys
    ensures Chunks(round, chunks + [chunk]) && Union(chunks + [chunk]) == Union(chunks) + chunk
    ensures PassAll(round, h, rows, chunks + [chunk]) == MinerPass(round, h, PassAll(round, h, rows, chunks), chunk)
  {
    assert (chunks + [chunk])[..|chunks|] == chunks;
  }

  lemma {:induction false} RunIsPasses(round: Round, orders: Orders, start: Emas, ticks: seq<Tick>, h: Hotkey)
    requires GoodTicks(orders, ticks) && OrdersOf(round, orders)
    ensures var s, chunks := RunTicks(round, orders, start, ticks), ChunksOf(round, orders, start, ticks);
      && Chunks(round, chunks) && Union(chunks) == ResolvedOf(s.targets)
      && RowsOf(s.emas, h) == PassAll(round, h, RowsOf(start, h), chunks)
    decreases |ticks|
  {
    if ticks == [] {
      assert ResolvedOf(map[]) == map[];
    } else {
      var front, last := ticks[..|ticks| - 1], ticks[|ticks| - 1];
      RunIsPasses(round, orders, start, front, h);
      var s, chunks := RunTicks(round, orders, start, front), ChunksOf(round, orders, start, front);
      TickSettles(round, orders, s, last, h);
      ResolvedOfMore(s.targets, SettledBy(orders, s, last));
      OneMoreChunk(round, h, RowsOf(start, h), chunks, Chunk(orders, s, last));
    }
  }

  lemma ChunkFront(round: Round, orders: Orders, start: Emas, ticks: seq<Tick>)
    requires GoodTicks(orders, ticks) && ticks != []
    ensures ChunksOf(round, orders, start, ticks)[..|ticks| - 1] == ChunksOf(round, orders, start, ticks[..|ticks| - 1])
  {
  }

  lemma PrefixTwice<T>(s: seq<T>, k: nat, n: nat)
    requires k <= n <= |s|
    ensures s[..n][..k] == s[..k]
  {
  }

  lemma {:induction false} ChunkPrefix(round: Round, orders: Orders, start: Emas, ticks: seq<Tick>, k: nat)
    requires GoodTicks(orders, ticks) && k <= |ticks|
    ensures ChunksOf(round, orders, start, ticks)[..k] == ChunksOf(round, orders, start, ticks[..k])
    decreases |ticks|
  {
    if k == |ticks| {
      assert ticks[..k] == ticks;
    } else {
      var n := |ticks| - 1;
      ChunkPrefix(round, orders, start, ticks[..n], k);
      PrefixTwice(ticks, k, n);
      ChunkFront(round, orders, start, ticks);
      PrefixTwice(ChunksOf(round, orders, start, ticks), k, n);
    }
  }

  lemma ChunkAt(round: Round, orders: Orders, start: Emas, ticks: seq<Tick>, k: nat)
    requires GoodTicks(orders, ticks) && k < |ticks|
    ensures ChunksOf(round, orders, start, ticks)[..k] == ChunksOf(round, orders, start, ticks[..k])
    ensures ChunksOf(round, orders, start, ticks)[k]
        == Chunk(orders, RunTicks(round, orders, start, ticks[..k]), ticks[k])
  {
    var upTo := ticks[..k + 1];
    assert upTo[..k] == ticks[..k] && upTo[k] == ticks[k];
    ChunkPrefix(round, orders, start, ticks, k);
    ChunkPrefix(round, orders, start, ticks, k + 1);
    assert ChunksOf(round, orders, start, ticks)[k] == ChunksOf(round, orders, start, ticks)[..k + 1][k];
  }

  // -- where a run of ticks ends ------------------------------------------------------------

  /** Tick `k` comes when the ones before have lost the miner for a coordinate it settles. */
  ghost predicate LosesAt(round: Round, orders: Orders, start: Emas, ticks: seq<Tick>, h: Hotkey, k: nat)
    requires GoodTicks(orders, ticks)
  {
    k < |ticks| &&
    var s := RunTicks(round, orders, start, ticks[..k]);
    Lost(round, h, RowsOf(start, h), ResolvedOf(s.targets), Chunk(orders, s, ticks[k]))
  }

  ghost predicate LosesNever(round: Round, orders: Orders, start: Emas, ticks: seq<Tick>, h: Hotkey)
    requires GoodTicks(orders, ticks)
  {
    forall k: nat {:trigger LosesAt(round, orders, start, ticks, h, k)} :: !LosesAt(round, orders, start, ticks, h, k)
  }

  lemma SameBoundary(round: Round, orders: Orders, start: Emas, ticks: seq<Tick>, h: Hotkey, k: nat)
    requires GoodTicks(orders, ticks) && OrdersOf(round, orders)
    ensures LosesAt(round, orders, start, ticks, h, k)
      <==> LostAt(round, h, RowsOf(start, h), ChunksOf(round, orders, start, ticks), k)
  {
    if k < |ticks| {
      ChunkAt(round, orders, start, ticks, k);
      RunIsPasses(round, orders, start, ticks[..k], h);
    }
  }

  lemma SameLosses(round: Round, orders: Orders, start: Emas, ticks: seq<Tick>, h: Hotkey)
    requires GoodTicks(orders, ticks) && OrdersOf(round, orders)
    ensures LosesNever(round, orders, start, ticks, h)
      <==> NeverLost(round, h, RowsOf(start, h), ChunksOf(round, orders, start, ticks))
  {
    var chunks := ChunksOf(round, orders, start, ticks);
    if LosesNever(round, orders, start, ticks, h) {
      forall k: nat ensures !LostAt(round, h, RowsOf(start, h), chunks, k) {
        SameBoundary(round, orders, start, ticks, h, k);
        assert !LosesAt(round, orders, start, ticks, h, k);
      }
    } else {
      var k: nat :| LosesAt(round, orders, start, ticks, h, k);
      SameBoundary(round, orders, start, ticks, h, k);
    }
  }

  /** However budgets cut a round's horizons, in whatever order its ticks take them and whenever targets come in, a
      miner's EMAs end where one pass over all targets stored ends, if and only if no tick loses it. */
  lemma BudgetsMatterExactly(round: Round, orders: Orders, start: Emas, ticks: seq<Tick>, h: Hotkey)
    requires GoodRound(round) && GoodTicks(orders, ticks) && OrdersOf(round, orders)
    ensures var s := RunTicks(round, orders, start, ticks);
      (RowsOf(s.emas, h) == MinerPass(round, h, RowsOf(start, h), ResolvedOf(s.targets)))
      <==> LosesNever(round, orders, start, ticks, h)
  {
    RunIsPasses(round, orders, start, ticks, h);
    SplitIsWholeExactly(round, h, RowsOf(start, h), ChunksOf(round, orders, start, ticks));
    SameLosses(round, orders, start, ticks, h);
  }

  /** In a round that does not mix paying and retired coordinates no tick ever loses a miner. */
  lemma UnmixedTicksLoseNone(round: Round, orders: Orders, start: Emas, ticks: seq<Tick>, h: Hotkey)
    requires GoodRound(round) && Unmixed(round) && GoodTicks(orders, ticks) && OrdersOf(round, orders)
    ensures LosesNever(round, orders, start, ticks, h)
  {
    RunIsPasses(round, orders, start, ticks, h);
    UnmixedLosesNone(round, h, RowsOf(start, h), ChunksOf(round, orders, start, ticks));
    SameLosses(round, orders, start, ticks, h);
  }

  /** The pass of tick `k` prunes the miner. */
  ghost predicate PrunesAt(round: Round, orders: Orders, start: Emas, ticks: seq<Tick>, h: Hotkey, k: nat)
    requires GoodTicks(orders, ticks)
  {
    k < |ticks| &&
    var s := RunTicks(round, orders, start, ticks[..k]);
    var rows, chunk := RowsOf(s.emas, h), Chunk(orders, s, ticks[k]);
    Pruned(round, h, rows + Updates(round, h, rows, chunk), chunk)
  }

  /** Over all the ticks of a round, a scored miner that none of them prunes takes exactly one observation on each
      coordinate resolved, and none elsewhere. */
  lemma ObservedOncePerRound(round: Round, orders: Orders, start: Emas, ticks: seq<Tick>, h: Hotkey, c: Coordinate)
    requires GoodTicks(orders, ticks) && OrdersOf(round, orders) && InScoringSet(round, h, RowsOf(start, h))
    requires forall k: nat {:trigger PrunesAt(round, orders, start, ticks, h, k)} ::
      !PrunesAt(round, orders, start, ticks, h, k)
    ensures var s, rows := RunTicks(round, orders, start, ticks), RowsOf(start, h);
      var after, resolved := RowsOf(s.emas, h), ResolvedOf(s.targets);
      && (c in after <==> c in rows || c in resolved)
      && (c in after && c in resolved ==> after[c] == Observed(round, h, rows, c, resolved[c])
                                          && after[c].rounds == (if c in rows then rows[c].rounds else 0) + 1)
      && (c in after && c !in resolved ==> after[c] == rows[c])
  {
    var chunks := ChunksOf(round, orders, start, ticks);
    RunIsPasses(round, orders, start, ticks, h);
    forall k: nat ensures !PrunedAt(round, h, RowsOf(start, h), chunks, k) {
      if k < |ticks| {
        ChunkAt(round, orders, start, ticks, k);
        RunIsPasses(round, orders, start, ticks[..k], h);
        assert !PrunesAt(round, orders, start, ticks, h, k);
      }
    }
    UnprunedTakesAll(round, h, RowsOf(start, h), chunks);
  }

  // -- two runs over the same answers ---------------------------------------------------------

  ghost predicate Deterministic(ticks: seq<Tick>, answers: map<Coordinate, Answer>) {
    forall i | 0 <= i < |ticks| :: ticks[i].answers == answers
  }

  function AnswerOf(target: Option<int>): Answer {
    if target.None? then Voided else Resolved(target.value)
  }

  /** Every stored target is an answer given, and a marked horizon has all of its targets. */
  ghost predicate Answered(s: Stored, orders: Orders, answers: map<Coordinate, Answer>) {
    && (forall c | c in s.targets :: c in answers && answers[c] == AnswerOf(s.targets[c]))
    && (forall c | c in s.targets :: exists z :: z in orders && c in orders[z])
    && (forall z, c | z in s.marked && z in orders && c in orders[z] :: c in s.targets)
  }

  lemma TickAnswered(round: Round, orders: Orders, s: Stored, t: Tick)
    requires GoodTick(orders, t) && Answered(s, orders, t.answers)
    ensures Answered(RunTick(round, orders, s, t), orders, t.answers)
  {
    NewTargetsWithin(orders[t.horizon], s.targets.Keys, t.answers, t.budget.calls);
  }

  lemma {:induction false} RunAnswered(round: Round, orders: Orders, start: Emas, ticks: seq<Tick>,
                                       answers: map<Coordinate, Answer>)
    requires GoodTicks(orders, ticks) && Deterministic(ticks, answers)
    ensures Answered(RunTicks(round, orders, start, ticks), orders, answers)
    decreases |ticks|
  {
    if ticks != [] {
      var n := |ticks| - 1;
      RunAnswered(round, orders, start, ticks[..n], answers);
      TickAnswered(round, orders, RunTicks(round, orders, start, ticks[..n]), ticks[n]);
    }
  }

  lemma TargetsWithin(s: Stored, t: Stored, orders: Orders, answers: map<Coordinate, Answer>)
    requires Answered(s, orders, answers) && Answered(t, orders, answers) && orders.Keys <= t.marked
    ensures forall c | c in s.targets :: c in t.targets && s.targets[c] == t.targets[c]
  {
    forall c | c in s.targets ensures c in t.targets && s.targets[c] == t.targets[c] {
      var z :| z in orders && c in orders[z];
      assert AnswerOf(s.targets[c]) == AnswerOf(t.targets[c]);
    }
  }

  /** Two runs that complete every horizon on the same answers store the same targets, whatever their budgets and
      their order; and a miner that one of them never loses ends with the same EMAs in both if and only if the other
      never loses it either. */
  lemma CompletedRunsAgree(round: Round, orders: Orders, start: Emas, answers: map<Coordinate, Answer>,
                           ticks: seq<Tick>, others: seq<Tick>, h: Hotkey)
    requires GoodRound(round) && OrdersOf(round, orders) && GoodTicks(orders, ticks) && GoodTicks(orders, others)
    requires Deterministic(ticks, answers) && Deterministic(others, answers)
    requires orders.Keys <= RunTicks(round, orders, start, ticks).marked
    requires orders.Keys <= RunTicks(round, orders, start, others).marked
    requires LosesNever(round, orders, start, others, h)
    ensures var s, t := RunTicks(round, orders, start, ticks), RunTicks(round, orders, start, others);
      && s.targets == t.targets
      && (RowsOf(s.emas, h) == RowsOf(t.emas, h) <==> LosesNever(round, orders, start, ticks, h))
  {
    var s, t := RunTicks(round, orders, start, ticks), RunTicks(round, orders, start, others);
    RunAnswered(round, orders, start, ticks, answers);
    RunAnswered(round, orders, start, others, answers);
    TargetsWithin(s, t, orders, answers);
    TargetsWithin(t, s, orders, answers);
    BudgetsMatterExactly(round, orders, start, ticks, h);
    BudgetsMatterExactly(round, orders, start, others, h);
  }

  /** With calls enough for every coordinate, one pass settles all that are not pending. */
  lemma {:induction false} EnoughCalls(order: seq<Coordinate>, answers: map<Coordinate, Answer>, calls: nat)
    requires Answers(order, answers) && calls >= |order|
    ensures forall c | c in order && answers[c] != Pending :: c in NewTargets(order, {}, answers, calls)
    decreases |order|
  {
    if order != [] {
      EnoughCalls(order[1..], answers, calls - 1);
    }
  }

  /** One tick of one horizon with budget enough: it loses no miner, and completes unless some target is pending. */
  lemma UnbudgetedTick(round: Round, orders: Orders, start: Emas, t: Tick, h: Hotkey)
    requires GoodTick(orders, t) && OrdersOf(round, orders)
    requires !t.budget.spentOnEntry && t.budget.calls >= |orders[t.horizon]|
    ensures LosesNever(round, orders, start, [t], h)
    ensures (forall c | c in orders[t.horizon] :: t.answers[c] != Pending) ==>
      t.horizon in RunTicks(round, orders, start, [t]).marked
  {
    assert [t][..0] == [];
    var s := RunTicks(round, orders, start, []);
    assert s == Stored(map[], {}, start) && ResolvedOf(s.targets) == map[];
    forall k: nat ensures !LosesAt(round, orders, start, [t], h, k) {
      if k < 1 {
        assert [t][..k] == [];
      }
    }
    assert s.targets.Keys == {};
    EnoughCalls(orders[t.horizon], t.answers, t.budget.calls);
  }

  /** So one horizon cut by any budgets ends, once complete, exactly where one unbudgeted pass over the same answers
      ends, for each miner that no tick loses and for no other. */
  lemma CompletedLikeUnbudgeted(round: Round, orders: Orders, start: Emas, ticks: seq<Tick>, whole: Tick, h: Hotkey)
    requires GoodRound(round) && OrdersOf(round, orders) && GoodTicks(orders, ticks) && GoodTick(orders, whole)
    requires orders.Keys == {whole.horizon} && Deterministic(ticks, whole.answers)
    requires !whole.budget.spentOnEntry && whole.budget.calls >= |orders[whole.horizon]|
    requires forall c | c in orders[whole.horizon] :: whole.answers[c] != Pending
    requires whole.horizon in RunTicks(round, orders, start, ticks).marked
    ensures var s, t := RunTicks(round, orders, start, ticks), RunTicks(round, orders, start, [whole]);
      && s.targets == t.targets && whole.horizon in t.marked
      && (RowsOf(s.emas, h) == RowsOf(t.emas, h) <==> LosesNever(round, orders, start, ticks, h))
  {
    UnbudgetedTick(round, orders, start, whole, h);
    CompletedRunsAgree(round, orders, start, whole.answers, ticks, [whole], h);
  }

  // -- a lost miner ------------------------------------------------------------------------------

  const MIXED_ORDERS: Orders := map[30 := [PAYING, RETIRED]]
  const BOTH_RESOLVED: map<Coordinate, Answer> := map[PAYING := Resolved(7), RETIRED := Resolved(7)]

  /** A tick with budget for one resolver call. */
  ghost function OneCall(): Tick {
    Tick(30, Budget(false, 1), BOTH_RESOLVED)
  }

  lemma FirstCall(start: Emas)
    ensures GoodTick(MIXED_ORDERS, OneCall()) && GoodTicks(MIXED_ORDERS, [OneCall()])
    ensures RunTicks(MixedRound(), MIXED_ORDERS, start, [OneCall()]).targets == map[PAYING := Some(7)]
    ensures 30 !in RunTicks(MixedRound(), MIXED_ORDERS, start, [OneCall()]).marked
  {
    var order, t := [PAYING, RETIRED], OneCall();
    assert [t][..0] == [];
    var none: map<Coordinate, Option<int>> := map[];
    assert none.Keys == {};
    assert order[1..] == [RETIRED];
    assert NewTargets(order[1..], {}, BOTH_RESOLVED, 0) == map[];
    assert NewTargets(order, {}, BOTH_RESOLVED, 1) == map[PAYING := Some(7)];
    assert none + map[PAYING := Some(7)] == map[PAYING := Some(7)];
    assert RETIRED in order;
  }

  lemma SecondCall(s: Stored)
    requires GoodTick(MIXED_ORDERS, OneCall()) && 30 !in s.marked && s.targets == map[PAYING := Some(7)]
    ensures SettledBy(MIXED_ORDERS, s, OneCall()) == map[RETIRED := Some(7)]
  {
    var order := [PAYING, RETIRED];
    assert order[1..] == [RETIRED] && order[1..][1..] == [];
    assert s.targets.Keys == {PAYING};
    assert NewTargets([], {PAYING}, BOTH_RESOLVED, 0) == map[];
    assert NewTargets(order[1..], {PAYING}, BOTH_RESOLVED, 1) == map[RETIRED := Some(7)];
  }

  lemma LostByTheSecond(start: Emas, ticks: seq<Tick>)
    requires start == map["h" := map[PAYING := Ema(0.01, 5)]] && ticks == [OneCall(), OneCall()]
    ensures GoodTicks(MIXED_ORDERS, ticks) && LosesAt(MixedRound(), MIXED_ORDERS, start, ticks, "h", 1)
  {
    FirstCall(start);
    assert ticks[..1] == [OneCall()];
    var s := RunTicks(MixedRound(), MIXED_ORDERS, start, ticks[..1]);
    SecondCall(s);
    assert ResolvedOf(s.targets) == map[PAYING := 7];
    assert Chunk(MIXED_ORDERS, s, ticks[1]) == map[RETIRED := 7];
    LostInMixedRound();
  }

  /** Two ticks with budget for one call each, over one paying and one retired coordinate of one horizon: the absent
      miner remembered only on the paying one ends without the zero row that one unbudgeted tick gives it. */
  lemma TwoTicksLoseAMiner()
    ensures var start: Emas := map["h" := map[PAYING := Ema(0.01, 5)]];
      && GoodRound(MixedRound()) && OrdersOf(MixedRound(), MIXED_ORDERS)
          && GoodTicks(MIXED_ORDERS, [OneCall(), OneCall()])
      && var s := RunTicks(MixedRound(), MIXED_ORDERS, start, [OneCall(), OneCall()]);
      RowsOf(s.emas, "h") != MinerPass(MixedRound(), "h", RowsOf(start, "h"), ResolvedOf(s.targets))
  {
    var start: Emas := map["h" := map[PAYING := Ema(0.01, 5)]];
    var ticks := [OneCall(), OneCall()];
    LostByTheSecond(start, ticks);
    BudgetsMatterExactly(MixedRound(), MIXED_ORDERS, start, ticks, "h");
  }
}
