/** Scores to emission weights: each identical-forecast pool is levelled to what its best member earns alone. */
module Weights {
  import opened Sums
  import opened Sorting
  import opened WeightProcessing
  import opened WeightRounding

  predicate NonNegative(s: seq<real>) {
    forall i | 0 <= i < |s| :: s[i] >= 0.0
  }

  predicate Descending(a: real, b: real) {
    a >= b
  }

  /** What is left of a weight after a cut that never takes it below zero. */
  function CutOne(v: real, level: real): (r: real)
    ensures r >= 0.0
  {
    if v - level > 0.0 then v - level else 0.0
  }

  function Cut(s: seq<real>, level: real): (r: seq<real>)
    ensures |r| == |s| && forall i | 0 <= i < |r| :: r[i] == CutOne(s[i], level)
  {
    seq(|s|, i requires 0 <= i < |s| => CutOne(s[i], level))
  }

  /** The scan for the level over weights in descending order, from position `k` on. */
  function LevelFrom(ordered: seq<real>, k: nat, total: real, level: real): real
    requires k <= |ordered|
    decreases |ordered| - k
  {
    if k == |ordered| then level else
      var sum := total + ordered[k];
      var candidate := (sum - ordered[0]) / (k + 1) as real;
      if ordered[k] <= candidate then level else LevelFrom(ordered, k + 1, sum, candidate)
  }

  /** The one cut that leaves a pool its largest weight. */
  function Level(values: seq<real>): real {
    LevelFrom(Sort(values, Descending), 0, 0.0, 0.0)
  }

  method LevelToBest(values: seq<real>) returns (r: seq<real>)
    ensures r == Cut(values, Level(values))
  {
    var ordered := Sort(values, Descending);
    var level, total := 0.0, 0.0;
    var k := 0;
    while k < |ordered|
      invariant k <= |ordered|
      invariant LevelFrom(ordered, k, total, level) == Level(values)
    {
      total := total + ordered[k];
      var candidate := (total - ordered[0]) / (k + 1) as real;
      if ordered[k] <= candidate {
        break;
      }
      level := candidate;
      k := k + 1;
    }
    r := Cut(values, level);
  }

  // -- the level leaves exactly the best ---------------------------------

  lemma {:induction false} CutNothing(s: seq<real>, level: real)
    requires forall i | 0 <= i < |s| :: s[i] <= level
    ensures Sum(Cut(s, level)) == 0.0
  {
    SumScale(Cut(s, level), Cut(s, level), 0.0);
  }

  lemma {:induction false} CutEverywhere(s: seq<real>, level: real)
    requires forall i | 0 <= i < |s| :: s[i] >= level
    ensures Sum(Cut(s, level)) == Sum(s) - level * |s| as real
  {
    if s != [] {
      CutEverywhere(s[1..], level);
      assert Cut(s, level)[1..] == Cut(s[1..], level);
      Distribute(1.0, |s[1..]| as real, level);
    }
  }

  lemma CutSplit(s: seq<real>, k: nat, level: real)
    requires k <= |s|
    requires forall i | 0 <= i < k :: s[i] >= level
    requires forall i | k <= i < |s| :: s[i] <= level
    ensures Sum(Cut(s, level)) == Sum(s[..k]) - level * k as real
  {
    assert Cut(s, level) == Cut(s[..k], level) + Cut(s[k..], level);
    SumAppend(Cut(s[..k], level), Cut(s[k..], level));
    CutEverywhere(s[..k], level);
    CutNothing(s[k..], level);
  }

  /** One step of the scan keeps: level times count is the sum so far less the largest. */
  lemma StepLevel(x: real, n: nat)
    requires n > 0 && x >= 0.0
    ensures x / n as real * n as real == x && x / n as real >= 0.0
  {
  }

  lemma BelowLevel(v: real, level: real, candidate: real, n: real)
    requires n > 0.0 && v <= candidate && candidate * (n + 1.0) == level * n + v
    ensures v <= level
  {
    var p, q := v * n, level * n;
    assert v * (n + 1.0) == p + v;
    ProductNotNegative(candidate - v, n + 1.0);
    assert (candidate - v) * (n + 1.0) == q - p;
    var x := v - level;
    assert x * n == p - q;
    NotPositive(x, n);
  }

  lemma NotPositive(x: real, n: real)
    requires n > 0.0 && x * n <= 0.0
    ensures x <= 0.0
  {
  }

  /** Where the scan of a descending pool stands after `k` members: all of them exceed the level. */
  ghost predicate ScanState(ordered: seq<real>, k: nat, total: real, level: real) {
    && k <= |ordered| && ordered != [] && NonNegative(ordered) && Sorted(ordered, Descending)
    && total == Sum(ordered[..k]) && level >= 0.0
    && (k == 0 ==> level == 0.0)
    && (k > 0 ==> level * k as real == total - ordered[0])
    && (forall i | 0 <= i < k :: ordered[i] > level)
  }

  lemma NoSmallerBefore(ordered: seq<real>, k: nat)
    requires Sorted(ordered, Descending) && k < |ordered|
    ensures forall i | 0 <= i < k :: ordered[i] >= ordered[k]
    ensures forall i | k <= i < |ordered| :: ordered[i] <= ordered[k]
  {
    forall i | 0 <= i < k ensures ordered[i] >= ordered[k] {
      assert Descending(ordered[i], ordered[k]);
    }
    forall i | k <= i < |ordered| ensures ordered[i] <= ordered[k] {
      assert i > k ==> Descending(ordered[k], ordered[i]);
    }
  }

  lemma ScanSum(ordered: seq<real>, k: nat)
    requires k < |ordered| && NonNegative(ordered)
    ensures Sum(ordered[..k + 1]) == Sum(ordered[..k]) + ordered[k]
    ensures Sum(ordered[..k + 1]) >= ordered[0]
  {
    assert ordered[..k + 1] == ordered[..k] + [ordered[k]];
    SumAppend(ordered[..k], [ordered[k]]);
    SumNonNegative(ordered[..k + 1]);
    assert ordered[0] == ordered[..k + 1][0];
  }

  lemma ScanStops(ordered: seq<real>, k: nat, total: real, level: real, candidate: real)
    requires ScanState(ordered, k, total, level) && k < |ordered|
    requires candidate == (total + ordered[k] - ordered[0]) / (k + 1) as real && ordered[k] <= candidate
    ensures Sum(Cut(ordered, level)) == ordered[0]
  {
    ScanSum(ordered, k);
    NoSmallerBefore(ordered, k);
    if k > 0 {
      StepLevel(total + ordered[k] - ordered[0], k + 1);
      BelowLevel(ordered[k], level, candidate, k as real);
    }
    CutSplit(ordered, k, level);
  }

  lemma ScanAdvances(ordered: seq<real>, k: nat, total: real, level: real, candidate: real)
    requires ScanState(ordered, k, total, level) && k < |ordered|
    requires candidate == (total + ordered[k] - ordered[0]) / (k + 1) as real && ordered[k] > candidate
    ensures ScanState(ordered, k + 1, total + ordered[k], candidate)
  {
    ScanSum(ordered, k);
    NoSmallerBefore(ordered, k);
    StepLevel(total + ordered[k] - ordered[0], k + 1);
  }

  lemma {:induction false} LevelFromFacts(ordered: seq<real>, k: nat, total: real, level: real)
    requires ScanState(ordered, k, total, level)
    ensures var l := LevelFrom(ordered, k, total, level);
      0.0 <= l <= ordered[0] && Sum(Cut(ordered, l)) == ordered[0]
    decreases |ordered| - k
  {
    if k == |ordered| {
      assert ordered[..k] == ordered;
      CutSplit(ordered, k, level);
    } else {
      var candidate := (total + ordered[k] - ordered[0]) / (k + 1) as real;
      if ordered[k] <= candidate {
        ScanStops(ordered, k, total, level, candidate);
      } else {
        ScanAdvances(ordered, k, total, level, candidate);
        LevelFromFacts(ordered, k + 1, total + ordered[k], candidate);
      }
    }
  }

  lemma {:induction false} CutInAnyOrder(a: seq<real>, b: seq<real>, level: real)
    requires multiset(a) == multiset(b)
    ensures Sum(Cut(a, level)) == Sum(Cut(b, level))
    decreases |a|
  {
    if a == [] {
      assert |multiset(b)| == |b|;
    } else {
      var i := MatchHead(a, b);
      var rest := b[..i] + b[i + 1..];
      CutInAnyOrder(a[1..], rest, level);
      SumRemove(Cut(b, level), i);
      assert Cut(b, level)[..i] + Cut(b, level)[i + 1..] == Cut(rest, level);
      assert Cut(a, level)[1..] == Cut(a[1..], level);
    }
  }

  lemma LargestFirst(values: seq<real>)
    requires values != []
    ensures Sorted(Sort(values, Descending), Descending) && Sort(values, Descending)[0] == Max(values)
    ensures NonNegative(values) ==> NonNegative(Sort(values, Descending))
  {
    var ordered := Sort(values, Descending);
    SortSorted(values, Descending);
    SameElements(ordered, values);
    assert ordered[0] in values && Max(values) in ordered;
    var i :| 0 <= i < |ordered| && ordered[i] == Max(values);
    assert i > 0 ==> Descending(ordered[0], ordered[i]);
    assert forall k | 0 <= k < |ordered| :: ordered[k] in values;
  }

  /** The level is not negative, leaves the members together exactly the largest weight, and keeps their order. */
  lemma LevelLeavesBest(values: seq<real>)
    requires values != [] && NonNegative(values)
    ensures 0.0 <= Level(values) <= Max(values)
    ensures Sum(Cut(values, Level(values))) == Max(values)
    ensures forall i, j | 0 <= i < |values| && 0 <= j < |values| && values[i] <= values[j] ::
      Cut(values, Level(values))[i] <= Cut(values, Level(values))[j]
  {
    LargestFirst(values);
    var ordered := Sort(values, Descending);
    LevelFromFacts(ordered, 0, 0.0, 0.0);
    CutInAnyOrder(values, ordered, Level(values));
  }

  lemma {:induction false} DeeperCut(s: seq<real>, l: real, m: real)
    requires l <= m
    ensures Sum(Cut(s, l)) >= Sum(Cut(s, m))
    ensures Sum(Cut(s, l)) == Sum(Cut(s, m)) ==> Cut(s, l) == Cut(s, m)
  {
    if s != [] {
      DeeperCut(s[1..], l, m);
      assert Cut(s, l)[1..] == Cut(s[1..], l) && Cut(s, m)[1..] == Cut(s[1..], m);
      if Sum(Cut(s, l)) == Sum(Cut(s, m)) {
        assert Cut(s, l) == [CutOne(s[0], l)] + Cut(s[1..], l);
        assert Cut(s, m) == [CutOne(s[0], m)] + Cut(s[1..], m);
      }
    }
  }

  /** No other cut does the same: any level that leaves the members the largest weight leaves each the same. */
  lemma LevelUnique(values: seq<real>, level: real)
    requires values != [] && NonNegative(values)
    requires Sum(Cut(values, level)) == Max(values)
    ensures Cut(values, level) == Cut(values, Level(values))
  {
    LevelLeavesBest(values);
    if level <= Level(values) {
      DeeperCut(values, level, Level(values));
    } else {
      DeeperCut(values, Level(values), level);
    }
  }

  // -- joining a pool ----------------------------------------------------

  lemma {:induction false} CutGivesUp(s: seq<real>, level: real, i: nat)
    requires NonNegative(s) && level >= 0.0 && i < |s| && s[i] >= level
    ensures Sum(s) - Sum(Cut(s, level)) >= level
  {
    assert Cut(s, level)[1..] == Cut(s[1..], level);
    CutAtMost(s[1..], level);
    if i > 0 {
      CutGivesUp(s[1..], level, i - 1);
    }
  }

  lemma {:induction false} CutAtMost(s: seq<real>, level: real)
    requires NonNegative(s) && level >= 0.0
    ensures 0.0 <= Sum(Cut(s, level)) <= Sum(s)
  {
    if s != [] {
      assert Cut(s, level)[1..] == Cut(s[1..], level);
      CutAtMost(s[1..], level);
    }
  }

  /** Above the level the joiners keep no more than the whole pool's best leaves the others. */
  lemma JoinersKeep(pool: seq<real>, joiners: seq<real>, l: real, best: real)
    requires pool != [] && NonNegative(pool) && NonNegative(joiners) && l >= 0.0
    requires best == Sum(Cut(pool, l)) + Sum(Cut(joiners, l)) && best >= Max(pool)
    ensures 2.0 * Sum(Cut(joiners, l)) <= Sum(joiners) + best - Max(pool)
  {
    var top := IndexOf(pool, Max(pool));
    SumNonNegative(Cut(pool, l));
    assert Cut(pool, l)[top] <= Sum(Cut(pool, l));
    CutAtMost(joiners, l);
    if i :| 0 <= i < |joiners| && joiners[i] >= l {
      CutGivesUp(joiners, l, i);
    } else {
      CutNothing(joiners, l);
    }
  }

  lemma MaxOfJoined(pool: seq<real>, joiners: seq<real>)
    requires pool != []
    ensures Max(pool + joiners) >= Max(pool)
  {
    var all, top := pool + joiners, IndexOf(pool, Max(pool));
    assert all[top] == Max(pool);
  }

  lemma CutAppend(a: seq<real>, b: seq<real>, l: real)
    ensures Sum(Cut(a + b, l)) == Sum(Cut(a, l)) + Sum(Cut(b, l))
  {
    assert Cut(a + b, l) == Cut(a, l) + Cut(b, l);
    SumAppend(Cut(a, l), Cut(b, l));
  }

  /** When `joiners` join `pool`, the pool's members lose together no more than the joiners give up. */
  lemma JoinersPayForTheLoss(pool: seq<real>, joiners: seq<real>)
    requires pool != [] && NonNegative(pool) && NonNegative(joiners)
    ensures
      var before, after := Level(pool), Level(pool + joiners);
      Sum(Cut(pool, before)) - Sum(Cut(pool, after)) <= Sum(joiners) - Sum(Cut(joiners, after))
  {
    var all := pool + joiners;
    LevelLeavesBest(pool);
    LevelLeavesBest(all);
    MaxOfJoined(pool, joiners);
    CutAppend(pool, joiners, Level(all));
    JoinersKeep(pool, joiners, Level(all), Max(all));
  }

  // -- normalize_weights -------------------------------------------------

  function Pow(x: real, n: nat): real {
    if n == 0 then 1.0 else x * Pow(x, n - 1)
  }

  lemma {:induction false} PowNonNegative(x: real, n: nat)
    requires x >= 0.0
    ensures Pow(x, n) >= 0.0
  {
    if n > 0 {
      PowNonNegative(x, n - 1);
      ProductNotNegative(x, Pow(x, n - 1));
    }
  }

  /** A pool's members that hold a score, each once, in the pool's order. */
  function Members(pool: seq<string>, keys: set<string>): (r: seq<string>)
    ensures Distinct(r) && forall k :: k in r <==> k in pool && k in keys
  {
    if pool == [] then [] else
      var n := |pool| - 1;
      var r := Members(pool[..n], keys);
      assert pool == pool[..n] + [pool[n]];
      if pool[n] in keys && pool[n] !in r then r + [pool[n]] else r
  }

  function ValuesOf(members: seq<string>, m: map<string, real>): (r: seq<real>)
    requires forall k | k in members :: k in m
    ensures |r| == |members| && forall i | 0 <= i < |r| :: r[i] == m[members[i]]
  {
    seq(|members|, i requires 0 <= i < |members| => assert members[i] in members; m[members[i]])
  }

  function PoolValues(m: map<string, real>, pool: seq<string>): seq<real> {
    ValuesOf(Members(pool, m.Keys), m)
  }

  function LevelPool(m: map<string, real>, pool: seq<string>): (r: map<string, real>)
    ensures r.Keys == m.Keys
  {
    map k | k in m :: if k in pool then CutOne(m[k], Level(PoolValues(m, pool))) else m[k]
  }

  function LevelPools(m: map<string, real>, pools: seq<seq<string>>): (r: map<string, real>)
    ensures r.Keys == m.Keys
  {
    if pools == [] then m else LevelPool(LevelPools(m, pools[..|pools| - 1]), pools[|pools| - 1])
  }

  function Powered(scores: map<string, real>, gamma: nat): map<string, real> {
    map k | k in scores :: Pow(scores[k], gamma)
  }

  ghost function ValueIn(m: map<string, real>): string -> real {
    k => if k in m then m[k] else 0.0
  }

  ghost function TotalOf(m: map<string, real>): real {
    SumSet(m.Keys, ValueIn(m))
  }

  ghost function Shares(m: map<string, real>): (r: map<string, real>)
    ensures r.Keys == m.Keys
  {
    map k | k in m :: if TotalOf(m) == 0.0 then 0.0 else m[k] / TotalOf(m)
  }

  /** The specification of normalize_weights. */
  ghost function NormalizedWeights(scores: map<string, real>, gamma: nat, pools: seq<seq<string>>): map<string, real> {
    Shares(LevelPools(Powered(scores, gamma), pools))
  }

  /** Overwrite the members' weights with their cut ones. */
  method UpdateMembers(m: map<string, real>, members: seq<string>, cut: seq<real>, ghost level: real)
    returns (r: map<string, real>)
    requires Distinct(members) && (forall k | k in members :: k in m) && cut == Cut(ValuesOf(members, m), level)
    ensures r.Keys == m.Keys
    ensures forall k | k in m :: r[k] == if k in members then CutOne(m[k], level) else m[k]
  {
    r := m;
    for i := 0 to |members|
      invariant r.Keys == m.Keys
      invariant forall k | k in m :: r[k] == if k in members[..i] then CutOne(m[k], level) else m[k]
    {
      assert members[i] in members;
      r := r[members[i] := cut[i]];
      assert members[..i + 1] == members[..i] + [members[i]];
    }
    assert members[..|members|] == members;
  }

  method LevelOnePool(m: map<string, real>, pool: seq<string>) returns (r: map<string, real>)
    ensures r == LevelPool(m, pool)
  {
    var members := Members(pool, m.Keys);
    var cut := LevelToBest(ValuesOf(members, m));
    r := UpdateMembers(m, members, cut, Level(ValuesOf(members, m)));
  }

  method NormalizeWeights(scores: map<string, real>, gamma: nat, pools: seq<seq<string>>) returns (r: map<string, real>)
    ensures r == NormalizedWeights(scores, gamma, pools)
  {
    var powered := Powered(scores, gamma);
    for i := 0 to |pools|
      invariant powered == LevelPools(Powered(scores, gamma), pools[..i])
    {
      powered := LevelOnePool(powered, pools[i]);
      assert pools[..i + 1][..i] == pools[..i];
    }
    assert pools[..|pools|] == pools;
    var total, rest := 0.0, powered.Keys;
    while rest != {}
      invariant rest <= powered.Keys
      invariant total + SumSet(rest, ValueIn(powered)) == TotalOf(powered)
      decreases rest
    {
      var key :| key in rest;
      SumSetRemove(rest, ValueIn(powered), key);
      total := total + powered[key];
      rest := rest - {key};
    }
    if total == 0.0 {
      r := map k | k in scores :: 0.0;
    } else {
      r := map k | k in powered :: powered[k] / total;
    }
  }

  // -- what a pool is worth ----------------------------------------------

  lemma {:induction false} LevelledAlone(m: map<string, real>, pools: seq<seq<string>>, k: string)
    requires k in m && forall g | 0 <= g < |pools| :: k !in pools[g]
    ensures LevelPools(m, pools)[k] == m[k]
  {
    if pools != [] {
      LevelledAlone(m, pools[..|pools| - 1], k);
    }
  }

  lemma SamePoolValues(m: map<string, real>, n: map<string, real>, pool: seq<string>)
    requires forall k | k in pool :: (k in m <==> k in n) && (k in m ==> m[k] == n[k])
    ensures PoolValues(m, pool) == PoolValues(n, pool)
  {
    SameMembers(pool, m.Keys, n.Keys);
    var members := Members(pool, m.Keys);
    forall i | 0 <= i < |members| ensures m[members[i]] == n[members[i]] {
      assert members[i] in members;
    }
  }

  lemma {:induction false} SameMembers(pool: seq<string>, a: set<string>, b: set<string>)
    requires forall k | k in pool :: k in a <==> k in b
    ensures Members(pool, a) == Members(pool, b)
  {
    if pool != [] {
      assert pool[|pool| - 1] in pool;
      SameMembers(pool[..|pool| - 1], a, b);
    }
  }

  lemma LevelledLast(m: map<string, real>, before: map<string, real>, pool: seq<string>, k: string)
    requires before.Keys == m.Keys && k in pool && k in m
    requires forall x | x in pool && x in m :: before[x] == m[x]
    ensures LevelPool(before, pool)[k] == CutOne(m[k], Level(PoolValues(m, pool)))
  {
    SamePoolValues(m, before, pool);
  }

  /** With disjoint pools, each pool is levelled on its members' own sharpened scores. */
  lemma {:induction false} LevelledInPool(m: map<string, real>, pools: seq<seq<string>>, g: nat, k: string)
    requires DisjointGroups(pools) && g < |pools| && k in pools[g] && k in m
    ensures LevelPools(m, pools)[k] == CutOne(m[k], Level(PoolValues(m, pools[g])))
  {
    var n := |pools| - 1;
    var before := LevelPools(m, pools[..n]);
    if g == n {
      forall x | x in pools[n] && x in m ensures before[x] == m[x] {
        LevelledAlone(m, pools[..n], x);
      }
      LevelledLast(m, before, pools[n], k);
    } else {
      LevelledInPool(m, pools[..n], g, k);
    }
  }

  /** The pool's keys among the scored ones. */
  ghost function PoolKeys(m: map<string, real>, pool: seq<string>): set<string> {
    set k | k in pool && k in m
  }

  ghost predicate NonNegativeScores(m: map<string, real>) {
    forall k | k in m :: m[k] >= 0.0
  }

  lemma {:induction false} LevelledNonNegative(m: map<string, real>, pools: seq<seq<string>>)
    requires NonNegativeScores(m)
    ensures NonNegativeScores(LevelPools(m, pools))
  {
    if pools != [] {
      LevelledNonNegative(m, pools[..|pools| - 1]);
    }
  }

  /** After levelling, a pool holds together exactly its largest sharpened score. */
  lemma PoolTotal(m: map<string, real>, pools: seq<seq<string>>, g: nat)
    requires DisjointGroups(pools) && g < |pools| && NonNegativeScores(m) && PoolValues(m, pools[g]) != []
    ensures SumSet(PoolKeys(m, pools[g]), ValueIn(LevelPools(m, pools))) == Max(PoolValues(m, pools[g]))
  {
    var members, values := Members(pools[g], m.Keys), PoolValues(m, pools[g]);
    forall i | 0 <= i < |values| ensures values[i] >= 0.0 {
      assert members[i] in members;
    }
    LevelLeavesBest(values);
    var cut := Cut(values, Level(values));
    forall i | 0 <= i < |members| ensures cut[i] == ValueIn(LevelPools(m, pools))(members[i]) {
      assert members[i] in members;
      LevelledInPool(m, pools, g, members[i]);
    }
    SumSeqAsSet(members, cut, ValueIn(LevelPools(m, pools)));
    assert PoolKeys(m, pools[g]) == (set k | k in members);
  }

  /** Two sharpened score maps that differ only inside pool `g`, whose best is the same in both. */
  ghost predicate SameOutside(m: map<string, real>, mp: seq<seq<string>>, n: map<string, real>, np: seq<seq<string>>,
                              g: nat)
  {
    && g < |mp| == |np| && DisjointGroups(mp) && DisjointGroups(np)
    && NonNegativeScores(m) && NonNegativeScores(n)
    && (forall h | 0 <= h < |mp| && h != g :: mp[h] == np[h])
    && m.Keys - PoolKeys(m, mp[g]) == n.Keys - PoolKeys(n, np[g])
    && (forall k | k in m.Keys - PoolKeys(m, mp[g]) :: k in n && m[k] == n[k])
    && PoolValues(m, mp[g]) != [] && PoolValues(n, np[g]) != []
    && Max(PoolValues(m, mp[g])) == Max(PoolValues(n, np[g]))
  }

  lemma SameLevelledOutside(m: map<string, real>, mp: seq<seq<string>>, n: map<string, real>, np: seq<seq<string>>,
                            g: nat, k: string)
    requires SameOutside(m, mp, n, np, g) && k in m.Keys - PoolKeys(m, mp[g])
    ensures k in n && LevelPools(m, mp)[k] == LevelPools(n, np)[k]
  {
    assert k in n.Keys - PoolKeys(n, np[g]);
    if h :| 0 <= h < |mp| && k in mp[h] {
      LevelledInPool(m, mp, h, k);
      LevelledInPool(n, np, h, k);
      forall x | x in mp[h] ensures (x in m <==> x in n) && (x in m ==> m[x] == n[x]) {
        assert x !in mp[g] && x !in np[g];
        assert x in m <==> x in m.Keys - PoolKeys(m, mp[g]);
        assert x in n <==> x in n.Keys - PoolKeys(n, np[g]);
      }
      SamePoolValues(m, n, mp[h]);
    } else {
      LevelledAlone(m, mp, k);
      LevelledAlone(n, np, k);
    }
  }

  /** Then both totals agree. */
  lemma SameTotal(m: map<string, real>, mp: seq<seq<string>>, n: map<string, real>, np: seq<seq<string>>, g: nat)
    requires SameOutside(m, mp, n, np, g)
    ensures TotalOf(LevelPools(m, mp)) == TotalOf(LevelPools(n, np))
    ensures SumSet(PoolKeys(m, mp[g]), ValueIn(LevelPools(m, mp)))
        == SumSet(PoolKeys(n, np[g]), ValueIn(LevelPools(n, np)))
  {
    var a, b := LevelPools(m, mp), LevelPools(n, np);
    var outside := m.Keys - PoolKeys(m, mp[g]);
    PoolTotal(m, mp, g);
    PoolTotal(n, np, g);
    forall k | k in outside ensures ValueIn(a)(k) == ValueIn(b)(k) {
      SameLevelledOutside(m, mp, n, np, g, k);
    }
    SumSetCongruent(outside, ValueIn(a), ValueIn(b));
    TotalSplit(a, PoolKeys(m, mp[g]), outside);
    TotalSplit(b, PoolKeys(n, np[g]), outside);
  }

  lemma TotalSplit(m: map<string, real>, part: set<string>, rest: set<string>)
    requires part <= m.Keys && rest == m.Keys - part
    ensures TotalOf(m) == SumSet(part, ValueIn(m)) + SumSet(rest, ValueIn(m))
  {
    assert m.Keys == part + rest;
    SumSetUnion(part, rest, ValueIn(m));
  }

  lemma ShareOf(v: real, total: real)
    requires total != 0.0
    ensures (v / total) * total == v
  {
  }

  lemma SharesTotal(m: map<string, real>, keys: set<string>, total: real)
    requires keys <= m.Keys && total == TotalOf(m) && total != 0.0
    ensures SumSet(keys, ValueIn(Shares(m))) * total == SumSet(keys, ValueIn(m))
  {
    var f, g := ValueIn(Shares(m)), ValueIn(m);
    forall k | k in keys ensures f(k) * total == g(k) {
      ShareOf(m[k], total);
    }
    SumSetScale(keys, f, g, total);
  }

  lemma ZeroShares(m: map<string, real>, keys: set<string>)
    requires keys <= m.Keys && TotalOf(m) == 0.0
    ensures SumSet(keys, ValueIn(Shares(m))) == 0.0
  {
    var f := ValueIn(Shares(m));
    forall k | k in keys ensures f(k) == 0.0 * f(k) {
    }
    SumSetScale(keys, f, f, 0.0);
  }

  lemma SameQuotient(a: real, b: real, total: real, x: real)
    requires total != 0.0 && a * total == x && b * total == x
    ensures a == b
  {
    assert (a - b) * total == 0.0;
  }

  lemma ShareDecided(x: map<string, real>, xs: set<string>, total: real, part: real, other: real)
    requires total == TotalOf(x) && total != 0.0 && xs <= x.Keys && part == SumSet(xs, ValueIn(x))
    requires other * total == part
    ensures SumSet(xs, ValueIn(Shares(x))) == other
  {
    SharesTotal(x, xs, total);
    SameQuotient(SumSet(xs, ValueIn(Shares(x))), other, total, part);
  }

  lemma SameShares(x: map<string, real>, y: map<string, real>, xs: set<string>, ys: set<string>, total: real,
                   part: real)
    requires TotalOf(x) == total == TotalOf(y) && xs <= x.Keys && ys <= y.Keys
    requires SumSet(xs, ValueIn(x)) == part == SumSet(ys, ValueIn(y))
    ensures SumSet(xs, ValueIn(Shares(x))) == SumSet(ys, ValueIn(Shares(y)))
  {
    if total == 0.0 {
      ZeroShares(x, xs);
      ZeroShares(y, ys);
    } else {
      var share := part / total;
      ShareOf(part, total);
      ShareDecided(x, xs, total, part, share);
      ShareDecided(y, ys, total, part, share);
    }
  }

  /** A pool is worth what its best member makes it worth: neither the other members, nor how many there
      are, change the weight of any hotkey outside, or the pool's own total. */
  lemma PoolBestDecides(m: map<string, real>, mp: seq<seq<string>>, n: map<string, real>, np: seq<seq<string>>, g: nat)
    requires SameOutside(m, mp, n, np, g)
    ensures forall k | k in m.Keys - PoolKeys(m, mp[g]) ::
      k in n && Shares(LevelPools(m, mp))[k] == Shares(LevelPools(n, np))[k]
    ensures SumSet(PoolKeys(m, mp[g]), ValueIn(Shares(LevelPools(m, mp))))
         == SumSet(PoolKeys(n, np[g]), ValueIn(Shares(LevelPools(n, np))))
  {
    SameTotal(m, mp, n, np, g);
    var a, b := LevelPools(m, mp), LevelPools(n, np);
    SameShares(a, b, PoolKeys(m, mp[g]), PoolKeys(n, np[g]), TotalOf(a), SumSet(PoolKeys(m, mp[g]), ValueIn(a)));
    forall k | k in m.Keys - PoolKeys(m, mp[g])
      ensures k in n && Shares(LevelPools(m, mp))[k] == Shares(LevelPools(n, np))[k]
    {
      SameLevelledOutside(m, mp, n, np, g, k);
    }
  }

  lemma PoweredNonNegative(scores: map<string, real>, gamma: nat)
    requires NonNegativeScores(scores)
    ensures NonNegativeScores(Powered(scores, gamma))
  {
    forall k | k in scores ensures Pow(scores[k], gamma) >= 0.0 {
      PowNonNegative(scores[k], gamma);
    }
  }

  /** Emission weights are not negative, and add up to one unless every one of them is zero. */
  lemma WeightsSumToOneOrVanish(scores: map<string, real>, gamma: nat, pools: seq<seq<string>>)
    requires NonNegativeScores(scores)
    ensures var w := NormalizedWeights(scores, gamma, pools);
      && NonNegativeScores(w)
      && (TotalOf(w) == 1.0 || forall k | k in w :: w[k] == 0.0)
  {
    var l := LevelPools(Powered(scores, gamma), pools);
    PoweredNonNegative(scores, gamma);
    LevelledNonNegative(Powered(scores, gamma), pools);
    SumSetNonNegative(l.Keys, ValueIn(l));
    var total := TotalOf(l);
    if total > 0.0 {
      ShareDecided(l, l.Keys, total, total, 1.0);
      forall k | k in l ensures Shares(l)[k] >= 0.0 {
        QuotientNotNegative(l[k], total);
      }
    }
  }

  const WEIGHT_SHARPENING_GAMMA: nat := 3

  lemma Cube(x: real)
    ensures Pow(x, WEIGHT_SHARPENING_GAMMA) == x * x * x
  {
    assert Pow(x, 1) == x * Pow(x, 0);
    assert Pow(x, 2) == x * Pow(x, 1);
    assert x * (x * x) == x * x * x;
  }

  lemma CrossShares(a: real, b: real, total: real)
    requires total != 0.0
    ensures (a / total) * b == (b / total) * a
  {
    var p, q := a / total, b / total;
    assert p * total == a && q * total == b;
    assert p * (q * total) == q * (p * total);
  }

  /** Two hotkeys in no pool are paid in the ratio of the cubes of their scores. */
  lemma PaidByCubes(scores: map<string, real>, pools: seq<seq<string>>, a: string, b: string)
    requires a in scores && b in scores && forall g | 0 <= g < |pools| :: a !in pools[g] && b !in pools[g]
    ensures var w, s, t := NormalizedWeights(scores, WEIGHT_SHARPENING_GAMMA, pools), scores[a], scores[b];
      w[a] * (t * t * t) == w[b] * (s * s * s)
  {
    var m := Powered(scores, WEIGHT_SHARPENING_GAMMA);
    LevelledAlone(m, pools, a);
    LevelledAlone(m, pools, b);
    Cube(scores[a]);
    Cube(scores[b]);
    var total := TotalOf(LevelPools(m, pools));
    if total != 0.0 {
      CrossShares(m[a], m[b], total);
    }
  }

  lemma QuotientNotNegative(a: real, b: real)
    requires a >= 0.0 && b > 0.0
    ensures a / b >= 0.0
  {
  }

  /** The copies of one hotkey: fresh hotkeys with its score, joining its pool `g`. */
  ghost predicate Copies(scores: map<string, real>, pools: seq<seq<string>>, g: nat, original: string,
                         copies: seq<string>)
  {
    && g < |pools| && DisjointGroups(pools) && original in pools[g] && original in scores && Distinct(copies)
    && (forall c | c in copies :: c !in scores && forall h | 0 <= h < |pools| :: c !in pools[h])
  }

  function WithCopies(scores: map<string, real>, score: real, copies: seq<string>): map<string, real> {
    scores + map c | c in copies :: score
  }

  /** The best of a pool is an upper bound some member reaches. */
  lemma BestOfPool(m: map<string, real>, pool: seq<string>, best: real)
    requires (exists k :: k in pool && k in m && m[k] == best) && forall k | k in pool && k in m :: m[k] <= best
    ensures PoolValues(m, pool) != [] && Max(PoolValues(m, pool)) == best
  {
    var members, values := Members(pool, m.Keys), PoolValues(m, pool);
    var k :| k in pool && k in m && m[k] == best;
    assert k in members;
    assert values[IndexOf(members, k)] == best;
    var i := IndexOf(values, Max(values));
    assert members[i] in members;
  }

  lemma MaxOfPool(m: map<string, real>, pool: seq<string>) returns (best: real)
    requires exists k :: k in pool && k in m
    ensures (exists k :: k in pool && k in m && m[k] == best) && forall k | k in pool && k in m :: m[k] <= best
    ensures PoolValues(m, pool) != [] && Max(PoolValues(m, pool)) == best
  {
    var members, values := Members(pool, m.Keys), PoolValues(m, pool);
    var k :| k in pool && k in m;
    assert k in members;
    best := Max(values);
    assert members[IndexOf(values, best)] in members;
    forall k | k in pool && k in m ensures m[k] <= best {
      assert k in members;
      assert values[IndexOf(members, k)] == m[k];
    }
  }

  /** Splitting a hotkey into any number of equal copies that share its pool changes no outside weight. */
  lemma SplittingIsNeutral(scores: map<string, real>, gamma: nat, pools: seq<seq<string>>, g: nat, original: string,
                           copies: seq<string>)
    requires NonNegativeScores(scores) && Copies(scores, pools, g, original, copies)
    ensures var split := NormalizedWeights(WithCopies(scores, scores[original], copies), gamma,
                                           pools[g := pools[g] + copies]);
      forall k | k in scores && k !in pools[g] :: k in split && split[k] == NormalizedWeights(scores, gamma, pools)[k]
  {
    var m, n := Powered(scores, gamma), Powered(WithCopies(scores, scores[original], copies), gamma);
    var np := pools[g := pools[g] + copies];
    PoweredNonNegative(scores, gamma);
    PoweredNonNegative(WithCopies(scores, scores[original], copies), gamma);
    var best := MaxOfPool(m, pools[g]);
    CopiesKeepBest(scores, gamma, pools[g], original, copies, best);
    CopiesStayDisjoint(scores, pools, g, original, copies);
    assert m.Keys - PoolKeys(m, pools[g]) == n.Keys - PoolKeys(n, np[g]);
    PoolBestDecides(m, pools, n, np, g);
    forall k | k in scores && k !in pools[g]
      ensures k in n && Shares(LevelPools(n, np))[k] == Shares(LevelPools(m, pools))[k]
    {
      assert k in m.Keys - PoolKeys(m, pools[g]);
    }
  }

  lemma CopiesKeepBest(scores: map<string, real>, gamma: nat, pool: seq<string>, original: string, copies: seq<string>,
                       best: real)
    requires original in pool && original in scores && (forall c | c in copies :: c !in scores)
    requires var m := Powered(scores, gamma);
      (exists k :: k in pool && k in m && m[k] == best) && forall k | k in pool && k in m :: m[k] <= best
    ensures var n := Powered(WithCopies(scores, scores[original], copies), gamma);
      PoolValues(n, pool + copies) != [] && Max(PoolValues(n, pool + copies)) == best
  {
    var m, n := Powered(scores, gamma), Powered(WithCopies(scores, scores[original], copies), gamma);
    var k :| k in pool && k in m && m[k] == best;
    assert k in pool + copies && k in n && n[k] == best;
    forall x | x in pool + copies && x in n ensures n[x] <= best {
      assert x in copies || (x in pool && x in m && n[x] == m[x]);
      assert x in copies ==> n[x] == m[original];
    }
    BestOfPool(n, pool + copies, best);
  }

  lemma CopiesStayDisjoint(scores: map<string, real>, pools: seq<seq<string>>, g: nat, original: string,
                           copies: seq<string>)
    requires Copies(scores, pools, g, original, copies)
    ensures DisjointGroups(pools[g := pools[g] + copies])
  {
    var np := pools[g := pools[g] + copies];
    forall h | 0 <= h < |np| ensures Distinct(np[h]) {
      if h == g {
        forall i, j | 0 <= i < j < |np[g]| ensures np[g][i] != np[g][j] {
          assert i < |pools[g]| ==> np[g][i] in pools[g];
          assert j >= |pools[g]| ==> np[g][j] in copies;
        }
      }
    }
  }
}
