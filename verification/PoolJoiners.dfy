/** Who gains when hotkeys join a pool: the weight given up is renormalized over every miner. */
module PoolJoiners {
  import opened Sums
  import opened Sorting
  import opened WeightProcessing
  import opened WeightRounding
  import opened Weights

  /** Scored hotkeys that are in no pool, about to join pool `g`. */
  ghost predicate Joins(m: map<string, real>, pools: seq<seq<string>>, g: nat, joiners: seq<string>) {
    && g < |pools| && DisjointGroups(pools) && Distinct(joiners)
    && (forall j | j in joiners :: j in m && forall h | 0 <= h < |pools| :: j !in pools[h])
  }

  function Joined(pools: seq<seq<string>>, g: nat, joiners: seq<string>): seq<seq<string>>
    requires g < |pools|
  {
    pools[g := pools[g] + joiners]
  }

  lemma JoinedDisjoint(m: map<string, real>, pools: seq<seq<string>>, g: nat, joiners: seq<string>)
    requires Joins(m, pools, g, joiners)
    ensures DisjointGroups(Joined(pools, g, joiners))
  {
    var joined := Joined(pools, g, joiners);
    forall h, k, x | 0 <= h < k < |joined| && x in joined[h] ensures x !in joined[k] {
    }
    forall i, j | 0 <= i < j < |joined[g]| ensures joined[g][i] != joined[g][j] {
      if i < |pools[g]| <= j {
        assert joined[g][j] in joiners;
      }
    }
  }

  lemma MembersLast(pool: seq<string>, keys: set<string>, k: string)
    requires k in keys && k !in pool
    ensures Members(pool + [k], keys) == Members(pool, keys) + [k]
  {
    assert (pool + [k])[..|pool|] == pool;
  }

  lemma OneMoreJoiner(pool: seq<string>, keys: set<string>, front: seq<string>, last: string)
    requires last in keys && last !in pool && last !in front
    requires Members(pool + front, keys) == Members(pool, keys) + front
    ensures Members(pool + (front + [last]), keys) == Members(pool, keys) + (front + [last])
  {
    MembersLast(pool + front, keys, last);
    Regroup(pool, front, [last]);
    Regroup(Members(pool, keys), front, [last]);
  }

  lemma Regroup<T>(a: seq<T>, b: seq<T>, c: seq<T>)
    ensures a + (b + c) == a + b + c
  {
  }

  lemma {:induction false} MembersJoined(keys: set<string>, pool: seq<string>, joiners: seq<string>)
    requires Distinct(joiners) && forall j | j in joiners :: j in keys && j !in pool
    ensures Members(pool + joiners, keys) == Members(pool, keys) + joiners
    decreases |joiners|
  {
    if joiners == [] {
      assert pool + joiners == pool;
    } else {
      var front, last := joiners[..|joiners| - 1], joiners[|joiners| - 1];
      assert joiners == front + [last] && last in joiners && last !in front;
      MembersJoined(keys, pool, front);
      OneMoreJoiner(pool, keys, front, last);
    }
  }

  lemma ValuesJoined(m: map<string, real>, pool: seq<string>, joiners: seq<string>)
    requires Distinct(joiners) && forall j | j in joiners :: j in m && j !in pool
    ensures PoolValues(m, pool + joiners) == PoolValues(m, pool) + ValuesOf(joiners, m)
  {
    MembersJoined(m.Keys, pool, joiners);
  }

  // -- joining only cuts deeper -------------------------------------------------------------

  lemma CutKeepsMost(s: seq<real>, l: real, i: nat)
    requires i < |s|
    ensures Sum(Cut(s, l)) >= s[i] - l && Sum(Cut(s, l)) >= 0.0
  {
    SumNonNegative(Cut(s, l));
    assert Cut(s, l)[i] <= Sum(Cut(s, l));
  }

  lemma BestOfJoined(pool: seq<real>, joiners: seq<real>)
    requires pool != []
    ensures Max(pool + joiners) == Max(pool) || Max(pool + joiners) in joiners
  {
    var all := pool + joiners;
    var top := IndexOf(all, Max(all));
    if top < |pool| {
      assert pool[top] == Max(all);
      assert all[IndexOf(pool, Max(pool))] == Max(pool);
    } else {
      assert joiners[top - |pool|] == Max(all);
    }
  }

  /** At the old level the joined pool still holds its best. */
  lemma OldLevelHoldsBest(pool: seq<real>, joiners: seq<real>)
    requires pool != [] && NonNegative(pool) && NonNegative(joiners)
    ensures Sum(Cut(pool + joiners, Level(pool))) >= Max(pool + joiners)
  {
    LevelLeavesBest(pool);
    CutAppend(pool, joiners, Level(pool));
    BestOfJoined(pool, joiners);
    if Max(pool + joiners) in joiners {
      CutKeepsMost(joiners, Level(pool), IndexOf(joiners, Max(pool + joiners)));
    } else {
      SumNonNegative(Cut(joiners, Level(pool)));
    }
  }

  lemma JoiningCutsDeeper(pool: seq<real>, joiners: seq<real>, v: real)
    requires pool != [] && NonNegative(pool) && NonNegative(joiners) && v in pool
    ensures CutOne(v, Level(pool + joiners)) <= CutOne(v, Level(pool))
  {
    var all, before, after := pool + joiners, Level(pool), Level(pool + joiners);
    if after < before {
      OldLevelHoldsBest(pool, joiners);
      LevelLeavesBest(all);
      DeeperCut(all, after, before);
      assert all[IndexOf(pool, v)] == v;
      assert Cut(all, after)[IndexOf(pool, v)] == Cut(all, before)[IndexOf(pool, v)];
    }
  }

  // -- what every key keeps ------------------------------------------------------------------

  lemma OutsideKeeps(m: map<string, real>, pools: seq<seq<string>>, g: nat, joiners: seq<string>, k: string)
    requires Joins(m, pools, g, joiners) && k in m && k !in pools[g] && k !in joiners
    ensures LevelPools(m, Joined(pools, g, joiners))[k] == LevelPools(m, pools)[k]
  {
    var joined := Joined(pools, g, joiners);
    JoinedDisjoint(m, pools, g, joiners);
    if h :| 0 <= h < |pools| && k in pools[h] {
      LevelledInPool(m, pools, h, k);
      LevelledInPool(m, joined, h, k);
    } else {
      LevelledAlone(m, pools, k);
      LevelledAlone(m, joined, k);
    }
  }

  lemma JoinerKeeps(m: map<string, real>, pools: seq<seq<string>>, g: nat, joiners: seq<string>, k: string)
    requires Joins(m, pools, g, joiners) && k in joiners
    ensures LevelPools(m, pools)[k] == m[k]
    ensures LevelPools(m, Joined(pools, g, joiners))[k]
        == CutOne(m[k], Level(PoolValues(m, pools[g]) + ValuesOf(joiners, m)))
  {
    JoinedDisjoint(m, pools, g, joiners);
    LevelledAlone(m, pools, k);
    LevelledInPool(m, Joined(pools, g, joiners), g, k);
    ValuesJoined(m, pools[g], joiners);
  }

  lemma MemberKeeps(m: map<string, real>, pools: seq<seq<string>>, g: nat, joiners: seq<string>, k: string)
    requires Joins(m, pools, g, joiners) && k in m && k in pools[g]
    ensures LevelPools(m, pools)[k] == CutOne(m[k], Level(PoolValues(m, pools[g])))
    ensures LevelPools(m, Joined(pools, g, joiners))[k]
        == CutOne(m[k], Level(PoolValues(m, pools[g]) + ValuesOf(joiners, m)))
  {
    JoinedDisjoint(m, pools, g, joiners);
    LevelledInPool(m, pools, g, k);
    LevelledInPool(m, Joined(pools, g, joiners), g, k);
    ValuesJoined(m, pools[g], joiners);
  }

  lemma ValuesNonNegative(m: map<string, real>, keys: seq<string>)
    requires NonNegativeScores(m) && forall k | k in keys :: k in m
    ensures NonNegative(ValuesOf(keys, m))
  {
    forall i | 0 <= i < |keys| ensures m[keys[i]] >= 0.0 {
      assert keys[i] in keys;
    }
  }

  /** Nobody's sharpened score rises. */
  lemma NobodyGains(m: map<string, real>, pools: seq<seq<string>>, g: nat, joiners: seq<string>, k: string)
    requires Joins(m, pools, g, joiners) && NonNegativeScores(m) && k in m
    ensures 0.0 <= LevelPools(m, Joined(pools, g, joiners))[k] <= LevelPools(m, pools)[k]
  {
    LevelledNonNegative(m, Joined(pools, g, joiners));
    var members, values := Members(pools[g], m.Keys), PoolValues(m, pools[g]);
    ValuesNonNegative(m, members);
    ValuesNonNegative(m, joiners);
    if k in joiners {
      JoinerKeeps(m, pools, g, joiners, k);
      LevelLeavesBest(values + ValuesOf(joiners, m));
    } else if k in pools[g] {
      MemberKeeps(m, pools, g, joiners, k);
      assert k in members && values[IndexOf(members, k)] == m[k];
      JoiningCutsDeeper(values, ValuesOf(joiners, m), m[k]);
    } else {
      OutsideKeeps(m, pools, g, joiners, k);
    }
  }

  // -- totals ----------------------------------------------------------------------------------

  ghost function KeysIn(keys: seq<string>): set<string> {
    set k | k in keys
  }

  /** What the keys of a set give up together. */
  ghost function GivenUp(before: map<string, real>, after: map<string, real>, keys: set<string>): real {
    SumSet(keys, ValueIn(before)) - SumSet(keys, ValueIn(after))
  }

  lemma {:induction false} NoGainNoLoss(before: map<string, real>, after: map<string, real>, keys: set<string>,
                                        part: set<string>)
    requires part <= keys <= before.Keys && after.Keys == before.Keys
    requires forall k | k in before :: after[k] <= before[k]
    ensures GivenUp(before, after, keys) >= GivenUp(before, after, part) >= 0.0
    decreases keys
  {
    if keys != {} {
      var k :| k in keys;
      SumSetRemove(keys, ValueIn(before), k);
      SumSetRemove(keys, ValueIn(after), k);
      NoGainNoLoss(before, after, keys - {k}, part - {k});
      if k in part {
        SumSetRemove(part, ValueIn(before), k);
        SumSetRemove(part, ValueIn(after), k);
      } else {
        assert part - {k} == part;
      }
    }
  }

  lemma GivenUpBy(m: map<string, real>, keys: seq<string>, before: map<string, real>, after: map<string, real>,
                  had: seq<real>, kept: seq<real>)
    requires Distinct(keys) && before.Keys == after.Keys == m.Keys && |had| == |kept| == |keys|
    requires forall i | 0 <= i < |keys| :: keys[i] in m && before[keys[i]] == had[i] && after[keys[i]] == kept[i]
    ensures GivenUp(before, after, KeysIn(keys)) == Sum(had) - Sum(kept)
  {
    SumSeqAsSet(keys, had, ValueIn(before));
    SumSeqAsSet(keys, kept, ValueIn(after));
  }

  lemma GivenUpSplit(before: map<string, real>, after: map<string, real>, part: set<string>, rest: set<string>)
    requires part !! rest
    ensures GivenUp(before, after, part + rest) == GivenUp(before, after, part) + GivenUp(before, after, rest)
  {
    SumSetUnion(part, rest, ValueIn(before));
    SumSetUnion(part, rest, ValueIn(after));
  }

  lemma JoinersGiveUp(m: map<string, real>, pools: seq<seq<string>>, g: nat, joiners: seq<string>)
    requires Joins(m, pools, g, joiners)
    ensures var values, joined := PoolValues(m, pools[g]), ValuesOf(joiners, m);
      GivenUp(LevelPools(m, pools), LevelPools(m, Joined(pools, g, joiners)), KeysIn(joiners))
        == Sum(joined) - Sum(Cut(joined, Level(values + joined)))
  {
    var joined := ValuesOf(joiners, m);
    var kept := Cut(joined, Level(PoolValues(m, pools[g]) + joined));
    var before, after := LevelPools(m, pools), LevelPools(m, Joined(pools, g, joiners));
    forall i | 0 <= i < |joiners|
      ensures joiners[i] in m && before[joiners[i]] == joined[i] && after[joiners[i]] == kept[i]
    {
      assert joiners[i] in joiners;
      JoinerKeeps(m, pools, g, joiners, joiners[i]);
    }
    GivenUpBy(m, joiners, before, after, joined, kept);
  }

  lemma MembersGiveUp(m: map<string, real>, pools: seq<seq<string>>, g: nat, joiners: seq<string>)
    requires Joins(m, pools, g, joiners)
    ensures var values, joined := PoolValues(m, pools[g]), ValuesOf(joiners, m);
      GivenUp(LevelPools(m, pools), LevelPools(m, Joined(pools, g, joiners)), KeysIn(Members(pools[g], m.Keys)))
        == Sum(Cut(values, Level(values))) - Sum(Cut(values, Level(values + joined)))
  {
    var members, values := Members(pools[g], m.Keys), PoolValues(m, pools[g]);
    var had, kept := Cut(values, Level(values)), Cut(values, Level(values + ValuesOf(joiners, m)));
    var before, after := LevelPools(m, pools), LevelPools(m, Joined(pools, g, joiners));
    forall i | 0 <= i < |members|
      ensures members[i] in m && before[members[i]] == had[i] && after[members[i]] == kept[i]
    {
      assert members[i] in members;
      MemberKeeps(m, pools, g, joiners, members[i]);
    }
    GivenUpBy(m, members, before, after, had, kept);
  }

  lemma OutsideGivesNothing(m: map<string, real>, pools: seq<seq<string>>, g: nat, joiners: seq<string>,
                            outside: set<string>)
    requires Joins(m, pools, g, joiners) && outside <= m.Keys
    requires forall k | k in outside :: k !in pools[g] && k !in joiners
    ensures GivenUp(LevelPools(m, pools), LevelPools(m, Joined(pools, g, joiners)), outside) == 0.0
  {
    var before, after := LevelPools(m, pools), LevelPools(m, Joined(pools, g, joiners));
    forall k | k in outside ensures ValueIn(before)(k) == ValueIn(after)(k) {
      OutsideKeeps(m, pools, g, joiners, k);
    }
    SumSetCongruent(outside, ValueIn(before), ValueIn(after));
  }

  lemma AllGiveUp(m: map<string, real>, pools: seq<seq<string>>, g: nat, joiners: seq<string>, members: set<string>)
    requires Joins(m, pools, g, joiners) && members == KeysIn(Members(pools[g], m.Keys))
    ensures var before, after := LevelPools(m, pools), LevelPools(m, Joined(pools, g, joiners));
      GivenUp(before, after, m.Keys) == GivenUp(before, after, members) + GivenUp(before, after, KeysIn(joiners))
  {
    var before, after := LevelPools(m, pools), LevelPools(m, Joined(pools, g, joiners));
    var all := members + KeysIn(joiners);
    OutsideGivesNothing(m, pools, g, joiners, m.Keys - all);
    GivenUpSplit(before, after, members, KeysIn(joiners));
    GivenUpSplit(before, after, all, m.Keys - all);
    assert all + (m.Keys - all) == m.Keys;
  }

  /** All keys together give up at most twice what the joiners do. */
  lemma JoinersGiveHalf(m: map<string, real>, pools: seq<seq<string>>, g: nat, joiners: seq<string>)
    requires Joins(m, pools, g, joiners) && NonNegativeScores(m)
    ensures var before, after := LevelPools(m, pools), LevelPools(m, Joined(pools, g, joiners));
      GivenUp(before, after, m.Keys) <= 2.0 * GivenUp(before, after, KeysIn(joiners))
  {
    var members := Members(pools[g], m.Keys);
    AllGiveUp(m, pools, g, joiners, KeysIn(members));
    MembersGiveUp(m, pools, g, joiners);
    JoinersGiveUp(m, pools, g, joiners);
    ValuesNonNegative(m, members);
    ValuesNonNegative(m, joiners);
    MembersLoseLess(PoolValues(m, pools[g]), ValuesOf(joiners, m));
  }

  lemma MembersLoseLess(values: seq<real>, joined: seq<real>)
    requires NonNegative(values) && NonNegative(joined)
    ensures var after := Level(values + joined);
      Sum(Cut(values, Level(values))) - Sum(Cut(values, after)) <= Sum(joined) - Sum(Cut(joined, after))
  {
    if values != [] {
      JoinersPayForTheLoss(values, joined);
    } else if joined != [] {
      assert values + joined == joined;
      LevelLeavesBest(joined);
      CutAtMost(joined, Level(joined));
    }
  }

  // -- shares -------------------------------------------------------------------------------------

  /** A share that loses more than `d` on `cut`, which is at most twice `d`, is more than a half. */
  lemma MoreThanHalf(share: real, cut: real, d: real, loss: real)
    requires share >= 0.0 && d >= 0.0 && Scales(share, cut, loss) && cut <= 2.0 * d && loss > d
    ensures share > 0.5
  {
    if share <= 0.5 {
      ProductInOrder(share, cut, 2.0 * d);
      ProductInOrder(2.0 * d, share, 0.5);
    }
  }

  lemma LossOfShare(a: real, t: real, a2: real, t2: real, share: real, share2: real) returns (loss: real)
    requires Scales(share, t, a) && Scales(share2, t2, a2) && t2 > 0.0 && share2 > share
    ensures Scales(share, t - t2, loss) && loss > a - a2
  {
    loss := share * (t - t2);
    assert (share2 - share) * t2 > 0.0;
    assert (share2 - share) * t2 == share2 * t2 - share * t2;
    assert share * (t - t2) == share * t - share * t2;
  }

  /** When no more of the total is given up than twice what the part gives up, a larger share needs a share of more than
      a half before. */
  lemma LargerShareNeedsHalf(a: real, t: real, a2: real, t2: real, share: real, share2: real, d: real)
    requires Scales(share, t, a) && Scales(share2, t2, a2) && share >= 0.0 && t2 > 0.0
    requires d == a - a2 >= 0.0 && t - t2 <= 2.0 * d && share2 > share
    ensures share > 0.5
  {
    var loss := LossOfShare(a, t, a2, t2, share, share2);
    MoreThanHalf(share, t - t2, d, loss);
  }

  lemma ShareScales(m: map<string, real>, keys: set<string>)
    requires keys <= m.Keys && TotalOf(m) != 0.0
    ensures Scales(SumSet(keys, ValueIn(Shares(m))), TotalOf(m), SumSet(keys, ValueIn(m)))
  {
    SharesTotal(m, keys, TotalOf(m));
  }

  lemma ShareNotNegative(m: map<string, real>, keys: set<string>)
    requires NonNegativeScores(m) && keys <= m.Keys
    ensures SumSet(keys, ValueIn(Shares(m))) >= 0.0
  {
    SumSetNonNegative(m.Keys, ValueIn(m));
    if TotalOf(m) == 0.0 {
      ZeroShares(m, keys);
    } else {
      forall k | k in keys ensures ValueIn(Shares(m))(k) >= 0.0 {
        QuotientNotNegative(m[k], TotalOf(m));
      }
      SumSetNonNegative(keys, ValueIn(Shares(m)));
    }
  }

  lemma LargerShareOf(before: map<string, real>, after: map<string, real>, operator: set<string>)
    requires NonNegativeScores(before) && NonNegativeScores(after) && before.Keys == after.Keys
    requires operator <= before.Keys
    requires GivenUp(before, after, operator) >= 0.0
    requires GivenUp(before, after, before.Keys) <= 2.0 * GivenUp(before, after, operator)
    requires GivenUp(before, after, before.Keys) >= 0.0
    requires SumSet(operator, ValueIn(Shares(after))) > SumSet(operator, ValueIn(Shares(before)))
    ensures SumSet(operator, ValueIn(Shares(before))) > 0.5
  {
    ShareNotNegative(before, operator);
    SumSetNonNegative(after.Keys, ValueIn(after));
    if TotalOf(after) == 0.0 {
      ZeroShares(after, operator);
    } else {
      TotalFell(before, after);
      ShareScales(before, operator);
      ShareScales(after, operator);
      LargerShareNeedsHalf(SumSet(operator, ValueIn(before)), TotalOf(before), SumSet(operator, ValueIn(after)),
                           TotalOf(after),
                           SumSet(operator, ValueIn(Shares(before))), SumSet(operator, ValueIn(Shares(after))),
                           GivenUp(before, after, operator));
    }
  }

  lemma TotalFell(before: map<string, real>, after: map<string, real>)
    requires before.Keys == after.Keys
    ensures GivenUp(before, after, before.Keys) == TotalOf(before) - TotalOf(after)
  {
  }

  /** When hotkeys join a pool, the operator of all of them, whatever other hotkeys it runs, earns more emission weight
      only if it earned more than half of all of it before. */
  lemma JoiningPaysOnlyAMajority(scores: map<string, real>, gamma: nat, pools: seq<seq<string>>, g: nat,
                                 joiners: seq<string>, operator: set<string>)
    requires NonNegativeScores(scores) && Joins(scores, pools, g, joiners)
    requires KeysIn(joiners) <= operator <= scores.Keys
    ensures var before := NormalizedWeights(scores, gamma, pools);
      var after := NormalizedWeights(scores, gamma, Joined(pools, g, joiners));
      SumSet(operator, ValueIn(after)) > SumSet(operator, ValueIn(before)) ==> SumSet(operator, ValueIn(before)) > 0.5
  {
    var m := Powered(scores, gamma);
    var before, after := LevelPools(m, pools), LevelPools(m, Joined(pools, g, joiners));
    PoweredNonNegative(scores, gamma);
    LevelledNonNegative(m, pools);
    LevelledNonNegative(m, Joined(pools, g, joiners));
    forall k | k in before ensures after[k] <= before[k] {
      NobodyGains(m, pools, g, joiners, k);
    }
    NoGainNoLoss(before, after, operator, KeysIn(joiners));
    NoGainNoLoss(before, after, m.Keys, operator);
    JoinersGiveHalf(m, pools, g, joiners);
    if SumSet(operator, ValueIn(Shares(after))) > SumSet(operator, ValueIn(Shares(before))) {
      LargerShareOf(before, after, operator);
    }
  }
}
