/** Every vote the planner and the encoder build passes the recheck it meets before it is sent. */
module EmissionSafety {
  import opened Wrappers
  import opened BurnCommitment
  import opened Sums
  import opened Sorting
  import opened WeightProcessing
  import opened WeightRounding
  import opened ChainWeights
  import opened EmissionPolicy

  // -- groups of UIDs ----------------------------------------------------

  lemma {:induction false} UidsDistinct(pool: seq<string>, hotkeys: seq<string>, withheld: set<nat>)
    requires Distinct(pool)
    ensures Distinct(UidsOf(pool, hotkeys, withheld))
  {
    if pool != [] {
      UidsDistinct(pool[1..], hotkeys, withheld);
      assert pool[0] !in pool[1..];
    }
  }

  /** Every group comes from one pool, and holds only UIDs that may earn. */
  lemma {:induction false} GroupOrigin(pools: seq<seq<string>>, hotkeys: seq<string>, withheld: set<nat>,
                                       group: seq<int>)
    requires group in LongGroups(pools, hotkeys, withheld)
    ensures exists p :: 0 <= p < |pools| && group == UidsOf(pools[p], hotkeys, withheld)
  {
    if group != UidsOf(pools[0], hotkeys, withheld) {
      GroupOrigin(pools[1..], hotkeys, withheld, group);
      var p :| 0 <= p < |pools[1..]| && group == UidsOf(pools[1..][p], hotkeys, withheld);
      assert pools[1..][p] == pools[p + 1];
    }
  }

  lemma {:induction false} LongGroupsDisjoint(pools: seq<seq<string>>, hotkeys: seq<string>, withheld: set<nat>)
    requires DisjointGroups(pools)
    ensures DisjointGroups(LongGroups(pools, hotkeys, withheld))
    ensures forall g | g in LongGroups(pools, hotkeys, withheld) :: |g| > 1
  {
    if pools != [] {
      LongGroupsDisjoint(pools[1..], hotkeys, withheld);
      var first, rest := UidsOf(pools[0], hotkeys, withheld), LongGroups(pools[1..], hotkeys, withheld);
      UidsDistinct(pools[0], hotkeys, withheld);
      forall h, x | 0 <= h < |rest| && x in first ensures x !in rest[h] {
        GroupOrigin(pools[1..], hotkeys, withheld, rest[h]);
        var p :| 0 <= p < |pools[1..]| && rest[h] == UidsOf(pools[1..][p], hotkeys, withheld);
        assert hotkeys[x] in pools[0] && hotkeys[x] !in pools[p + 1];
      }
    }
  }

  /** Disjointness of nonempty groups does not depend on their order. */
  lemma DisjointPermutation(a: seq<seq<int>>, b: seq<seq<int>>)
    requires multiset(a) == multiset(b) && DisjointGroups(a) && forall g | g in a :: g != []
    ensures DisjointGroups(b)
  {
    SameElements(a, b);
    forall i, j | 0 <= i < j < |a| ensures a[i] != a[j] {
      assert a[i] in a;
      assert a[i][0] !in a[j];
    }
    DistinctPermutation(a, b);
    forall g | 0 <= g < |b| ensures Distinct(b[g]) {
      assert b[g] in a;
    }
    forall g, h, x | 0 <= g < h < |b| && x in b[g] ensures x !in b[h] {
      assert b[g] in a && b[h] in a;
      var i, j := IndexOf(a, b[g]), IndexOf(a, b[h]);
      assert i != j;
    }
  }

  /** The groups a plan hands the encoder are disjoint and name only UIDs that may earn. */
  lemma PlannedGroups(pools: seq<seq<string>>, hotkeys: seq<string>, withheld: set<nat>)
    requires DisjointGroups(pools)
    ensures DisjointGroups(PoolUids(pools, hotkeys, withheld))
    ensures forall g, u | g in PoolUids(pools, hotkeys, withheld) && u in g :: 0 <= u < |hotkeys| && u !in withheld
  {
    LongGroupsDisjoint(pools, hotkeys, withheld);
    var long, sorted := LongGroups(pools, hotkeys, withheld), PoolUids(pools, hotkeys, withheld);
    DisjointPermutation(long, sorted);
    SameElements(long, sorted);
    forall g, u | g in sorted && u in g ensures 0 <= u < |hotkeys| && u !in withheld {
      GroupOrigin(pools, hotkeys, withheld, g);
    }
  }

  // -- the raw vectors ---------------------------------------------------

  /** The earned scores, scaled to share `miners` between them. */
  lemma MinerShares(earned: seq<real>, miners: real, total: real)
    requires (forall k | 0 <= k < |earned| :: earned[k] >= 0.0) && total == Sum(earned) && total > 0.0 && miners > 0.0
    ensures var shares := DivideAll(ScaleAll(earned, miners), total);
      && Sum(shares) == miners
      && forall k | 0 <= k < |earned| :: shares[k] >= 0.0 && (shares[k] > 0.0 <==> earned[k] > 0.0)
  {
    var scaled := ScaleAll(earned, miners);
    forall k | 0 <= k < |scaled| ensures scaled[k] >= 0.0 && (scaled[k] > 0.0 <==> earned[k] > 0.0) {
      ScaledSign(earned[k], miners);
    }
    DividedSign(scaled, total);
    SumScale(earned, scaled, miners);
    SharesSum(scaled, total, miners);
  }

  lemma OwnerAdded(shares: seq<real>, ownerUid: nat, burn: real)
    requires ownerUid < |shares| && Sum(shares) == 1.0 - burn && shares[ownerUid] == 0.0
    ensures Sum(shares[ownerUid := burn]) == 1.0
  {
    SumUpdate(shares, ownerUid, burn);
  }

  lemma BurnShares(earned: seq<real>, ownerUid: nat, burn: real)
    requires ownerUid < |earned| && (forall k | 0 <= k < |earned| :: earned[k] >= 0.0) && earned[ownerUid] == 0.0
    requires Sum(earned) > 0.0 && 0.0 < burn < 1.0
    ensures var w := DivideAll(ScaleAll(earned, 1.0 - burn), Sum(earned))[ownerUid := burn];
      && |w| == |earned| && Sum(w) == 1.0 && w[ownerUid] == burn
      && forall k | 0 <= k < |w| :: w[k] >= 0.0 && (k != ownerUid && w[k] > 0.0 ==> earned[k] > 0.0)
  {
    MinerShares(earned, 1.0 - burn, Sum(earned));
    OwnerAdded(DivideAll(ScaleAll(earned, 1.0 - burn), Sum(earned)), ownerUid, burn);
  }

  /** The burn vector is a unit vector giving the owner exactly its rate. */
  lemma BurnVector(scores: seq<real>, ownerUid: nat, burnBps: BurnRate)
    requires ownerUid < |scores| && 0 < burnBps < FULL_BURN_BPS
    requires OwnerBurnWeights(scores, ownerUid, burnBps).Ok? && OwnerBurnWeights(scores, ownerUid, burnBps).value.Some?
    ensures var w := OwnerBurnWeights(scores, ownerUid, burnBps).value.value;
      && |w| == |scores| && Sum(w) == 1.0 && w[ownerUid] == burnBps as real / 10000.0
      && forall k | 0 <= k < |w| :: w[k] >= 0.0 && (k != ownerUid && w[k] > 0.0 ==> scores[k] > 0.0)
  {
    BurnShares(Clamped(scores)[ownerUid := 0.0], ownerUid, burnBps as real / 10000.0);
  }

  lemma ScaledSign(x: real, k: real)
    requires x >= 0.0 && k > 0.0
    ensures k * x >= 0.0 && (k * x > 0.0 <==> x > 0.0)
  {
  }

  lemma SharesSum(s: seq<real>, total: real, k: real)
    requires total > 0.0 && Sum(s) == k * total
    ensures Sum(DivideAll(s, total)) == k
  {
    DividedSum(s, total);
    CancelFactor(Sum(DivideAll(s, total)), k, total, Sum(s));
  }

  lemma CancelFactor(a: real, k: real, total: real, product: real)
    requires total > 0.0 && a * total == product && product == k * total
    ensures a == k
  {
    assert (a - k) * total == 0.0;
  }

  lemma {:induction false} DivideByOne(s: seq<real>)
    ensures DivideAll(s, 1.0) == s
  {
    if s != [] {
      DivideByOne(s[1..]);
    }
  }

  /** A unit vector without negative entries is its own candidate. */
  lemma UnitCandidate(w: seq<real>)
    requires Sum(w) == 1.0 && forall k | 0 <= k < |w| :: w[k] >= 0.0
    ensures EmissionCandidate(w) == Some(w)
  {
    assert Clamped(w) == w;
    DivideByOne(w);
    if forall k | 0 <= k < |w| :: w[k] <= 0.0 {
      SumScale(w, w, 0.0);
    }
    assert NormalizeScores(w) == w;
  }

  // -- filtering a unit vector -------------------------------------------

  /** Dropping the zeros of a vector keeps its sum and its UIDs apart. */
  lemma {:induction false} FilterVector(uids: seq<int>, weights: seq<real>)
    requires |uids| == |weights| && Distinct(uids) && forall k | 0 <= k < |weights| :: weights[k] >= 0.0
    ensures var (us, ws) := Filter(uids, weights, 0.0, true);
      Distinct(us) && Sum(ws) == Sum(weights)
  {
    if uids != [] {
      FilterVector(uids[1..], weights[1..]);
      FilteredUids(uids[1..], weights[1..], 0.0, true);
      assert uids[0] !in uids[1..];
    }
  }

  lemma {:induction false} FilterOnly(uids: seq<int>, weights: seq<real>, u: int) returns (k: nat)
    requires |uids| == |weights| && u in Filter(uids, weights, 0.0, true).0
    ensures k < |uids| && uids[k] == u && weights[k] > 0.0
  {
    if weights[0] > 0.0 && uids[0] == u {
      k := 0;
    } else {
      k := FilterOnly(uids[1..], weights[1..], u);
      k := k + 1;
    }
  }

  lemma IndexAfter(x: int, us: seq<int>, v: real, ws: seq<real>, u: int)
    requires u in us && u != x && |us| == |ws|
    ensures ([v] + ws)[IndexOf([x] + us, u)] == ws[IndexOf(us, u)]
  {
    assert ([x] + us)[1..] == us;
  }

  lemma {:induction false} FilterKeeps(uids: seq<int>, weights: seq<real>, k: nat)
    requires |uids| == |weights| && Distinct(uids) && k < |uids| && weights[k] > 0.0
    ensures var (us, ws) := Filter(uids, weights, 0.0, true);
      uids[k] in us && ws[IndexOf(us, uids[k])] == weights[k]
  {
    if k > 0 {
      FilterKeeps(uids[1..], weights[1..], k - 1);
      var (us, ws) := Filter(uids[1..], weights[1..], 0.0, true);
      assert uids[1..][k - 1] == uids[k] != uids[0];
      IndexAfter(uids[0], us, weights[0], ws, uids[k]);
    }
  }

  lemma ProcessedUnit(weights: seq<real>, us: seq<int>, ws: seq<real>)
    requires Sum(weights) == 1.0 && forall k | 0 <= k < |weights| :: weights[k] >= 0.0
    requires (us, ws) == Filter(Range(|weights|), weights, 0.0, true)
    ensures weights != [] && ws != [] && Sum(ws) == 1.0
    ensures Processed(Range(|weights|), weights, |weights|, 1, 1.0, EMISSION_EXCLUDE_QUANTILE) == Ok((us, ws))
  {
    if forall k | 0 <= k < |weights| :: weights[k] <= 0.0 {
      SumScale(weights, weights, 0.0);
    }
    ProcessedAtOne(Range(|weights|), weights, |weights|);
    FilterVector(Range(|weights|), weights);
    DivideByOne(ws);
  }

  // -- the encoded vote --------------------------------------------------

  lemma RoundingError(x: real)
    ensures -0.5 <= RoundHalfUp(x) as real - x <= 0.5
  {
  }

  lemma ProductBound(rate: real, error: real, half: real)
    requires 0.0 <= rate <= 10000.0 && -half <= error <= half
    ensures -(10000.0 * half) <= rate * error <= 10000.0 * half
  {
    ProductNotNegative(rate, half - error);
    ProductNotNegative(rate, half + error);
    ProductNotNegative(10000.0 - rate, half);
    assert rate * (half - error) == rate * half - rate * error;
    assert rate * (half + error) == rate * half + rate * error;
    assert (10000.0 - rate) * half == 10000.0 * half - rate * half;
  }

  /** The owner's entry `u` in a vote of total `total` over `n` UIDs is its rate up to (n + 1) / 2T. */
  predicate ShareWithin(u: int, total: int, n: nat, bps: BurnRate) {
    2 * Abs(BURN_BPS_DENOMINATOR * u - bps * total) <= BURN_BPS_DENOMINATOR * (n + 1)
  }

  lemma ShareWithinReals(u: int, total: int, n: nat, bps: BurnRate, d: real)
    requires d == 10000.0 * u as real - bps as real * total as real
    requires -5000.0 * (n + 1) as real <= d <= 5000.0 * (n + 1) as real
    ensures ShareWithin(u, total, n, bps)
  {
    assert (bps * total) as real == bps as real * total as real;
    assert (BURN_BPS_DENOMINATOR * u - bps * total) as real == d;
  }

  /** Half a unit on the owner and half a unit per UID on the total stay within the bound. */
  lemma ShareDeviation(u: int, total: int, n: nat, bps: BurnRate, s: real, exact: real, w: real)
    requires -0.5 <= u as real - s <= 0.5
    requires -0.5 * n as real <= total as real - exact <= 0.5 * n as real
    requires w == bps as real / 10000.0 && s == w * exact
    ensures ShareWithin(u, total, n, bps)
  {
    var rate, error := bps as real, total as real - exact;
    ProductBound(rate, error, 0.5 * n as real);
    assert rate * error == rate * total as real - rate * exact;
    assert rate == 10000.0 * w;
    assert rate * exact == 10000.0 * (w * exact);
    var d := 10000.0 * u as real - rate * total as real;
    assert d == 10000.0 * (u as real - s) - rate * error;
    ShareWithinReals(u, total, n, bps, d);
  }

  /** A share of at least one basis point never rounds away. */
  lemma ShareSurvives(w: real, s: real, bps: BurnRate)
    requires w == bps as real / 10000.0 && bps > 0 && s >= w * 65535.0
    ensures RoundHalfUp(s) > 0
  {
    assert w >= 0.0001;
  }

  /** What the encoder makes of one ungrouped position of a unit vector. */
  lemma UngroupedUnit(weights: seq<real>, positions: seq<seq<nat>>, top: real, scaled: seq<real>, k: nat, bps: BurnRate,
                      w: real, s: real, exact: real, total: int)
    requires k < |weights| && Sum(weights) == 1.0 && 0.0 < top <= 1.0 && scaled == Scaled(weights, top)
    requires w == weights[k] == bps as real / 10000.0 && bps > 0 && s == scaled[k] && exact == Sum(scaled)
    requires DisjointGroups(positions) && (forall g, x | 0 <= g < |positions| && x in positions[g] :: x < |scaled|)
    requires total == Total(Units(scaled, positions))
    ensures RoundHalfUp(s) > 0 && ShareWithin(RoundHalfUp(s), total, |weights|, bps)
  {
    ScaledShare(weights, k, top, w, s, exact);
    ShareSurvives(w, s, bps);
    RoundingError(s);
    TotalError(scaled, positions);
    ShareDeviation(RoundHalfUp(s), total, |weights|, bps, s, exact, w);
  }

  lemma AbsentFromPositions(uids: seq<int>, groups: seq<seq<int>>, k: nat)
    requires k < |uids| && forall g | g in groups :: uids[k] !in g
    ensures forall g | 0 <= g < |groups| :: k !in GroupPositions(uids, groups)[g]
  {
    forall g | 0 <= g < |groups| ensures k !in GroupPositions(uids, groups)[g] {
      assert groups[g] in groups;
    }
  }

  /** An ungrouped UID holding `bps` of a unit vector keeps its entry and its share of the encoded vote. */
  lemma EncodedShare(uids: seq<int>, weights: seq<real>, groups: seq<seq<int>>, scaled: seq<real>,
                     us: seq<int>, ws: seq<int>, owner: int, bps: BurnRate)
    requires |uids| == |weights| && Distinct(uids) && DisjointGroups(groups) && Sum(weights) == 1.0
    requires forall k | 0 <= k < |weights| :: weights[k] >= 0.0
    requires weights != [] && 0.0 < Max(weights) <= 1.0 && scaled == Scaled(weights, Max(weights))
    requires (us, ws) == Compact(uids, Units(scaled, GroupPositions(uids, groups)))
    requires owner in uids && bps > 0 && weights[IndexOf(uids, owner)] == bps as real / 10000.0
    requires forall g | g in groups :: owner !in g
    ensures owner in us && ShareWithin(ws[IndexOf(us, owner)], Total(ws), |uids|, bps)
  {
    var positions, k := GroupPositions(uids, groups), IndexOf(uids, owner);
    AbsentFromPositions(uids, groups, k);
    GroupPositionsDisjoint(uids, groups);
    UnitAlone(scaled, positions, k);
    var unit, total := UnitAt(scaled, positions, k), Total(Units(scaled, positions));
    UngroupedUnit(weights, positions, Max(weights), scaled, k, bps, weights[k], scaled[k], Sum(scaled), total);
    EncodedVote(uids, weights, groups, scaled, us, ws);
    assert Units(scaled, positions)[k] == unit;
    var p := IndexOf(us, owner);
    assert ws[p] == unit && Total(ws) == total;
  }

  /** UID `o` holds exactly `bps` of the raw vector, in no group. */
  ghost predicate HoldsShare(raw: seq<real>, groups: seq<seq<int>>, o: nat, bps: BurnRate) {
    o < |raw| && bps > 0 && raw[o] == bps as real / 10000.0 && forall g | g in groups :: o !in g
  }

  /** What is sent for a unit vector at chain minimum one and limit one. */
  ghost predicate VoteOf(raw: seq<real>, groups: seq<seq<int>>, us: seq<int>, ws: seq<int>) {
    && |us| == |ws| && Distinct(us) && U16_MAX in ws
    && (forall p | 0 <= p < |us| :: 0 <= us[p] < |raw| && raw[us[p]] > 0.0 && 0 < ws[p] <= U16_MAX)
    && (forall o: nat, bps: BurnRate | HoldsShare(raw, groups, o, bps) ::
          o in us && ShareWithin(ws[IndexOf(us, o)], Total(ws), |raw|, bps))
  }

  lemma FilterMatches(range: seq<int>, raw: seq<real>, u: int)
    requires |range| == |raw| && forall k | 0 <= k < |range| :: range[k] == k
    requires u in Filter(range, raw, 0.0, true).0
    ensures 0 <= u < |raw| && raw[u] > 0.0
  {
    var k := FilterOnly(range, raw, u);
  }

  lemma FilterFindsShare(raw: seq<real>, uids: seq<int>, weights: seq<real>, u: nat)
    requires (uids, weights) == Filter(Range(|raw|), raw, 0.0, true)
    requires (forall k | 0 <= k < |raw| :: raw[k] >= 0.0) && u < |raw| && raw[u] > 0.0
    ensures u in uids && weights[IndexOf(uids, u)] == raw[u]
  {
    FilterKeeps(Range(|raw|), raw, u);
  }

  lemma EncodedUnitVector(raw: seq<real>, groups: seq<seq<int>>) returns (us: seq<int>, ws: seq<int>)
    requires Sum(raw) == 1.0 && (forall k | 0 <= k < |raw| :: raw[k] >= 0.0) && DisjointGroups(groups)
    ensures ChainWeightVector(raw, Range(|raw|), |raw|, 1, 1.0, groups) == Ok((us, ws))
    ensures VoteOf(raw, groups, us, ws)
  {
    var (uids, weights) := Filter(Range(|raw|), raw, 0.0, true);
    ProcessedUnit(raw, uids, weights);
    FilterVector(Range(|raw|), raw);
    forall u | u in uids ensures 0 <= u < |raw| && raw[u] > 0.0 {
      FilterMatches(Range(|raw|), raw, u);
    }
    us, ws := EncodedFiltered(uids, weights, groups);
    forall p | 0 <= p < |us| ensures 0 <= us[p] < |raw| && raw[us[p]] > 0.0 {
      assert us[p] in uids;
    }
    forall o: nat, bps: BurnRate | HoldsShare(raw, groups, o, bps)
      ensures o in us && ShareWithin(ws[IndexOf(us, o)], Total(ws), |raw|, bps)
    {
      FilterFindsShare(raw, uids, weights, o);
      assert FilteredShare(uids, weights, groups, o, bps);
    }
  }

  ghost predicate FilteredShare(uids: seq<int>, weights: seq<real>, groups: seq<seq<int>>, o: int, bps: BurnRate)
    requires |uids| == |weights|
  {
    o in uids && bps > 0 && weights[IndexOf(uids, o)] == bps as real / 10000.0 && forall g | g in groups :: o !in g
  }

  lemma EncodedFiltered(uids: seq<int>, weights: seq<real>, groups: seq<seq<int>>) returns (us: seq<int>, ws: seq<int>)
    requires |uids| == |weights| && Distinct(uids) && DisjointGroups(groups) && Sum(weights) == 1.0
    requires (forall k | 0 <= k < |weights| :: weights[k] >= 0.0) && forall u | u in uids :: u >= 0
    ensures Encode(uids, weights, groups) == Ok((us, ws))
    ensures |us| == |ws| && Distinct(us) && U16_MAX in ws
    ensures forall p | 0 <= p < |us| :: us[p] in uids && 0 < ws[p] <= U16_MAX
    ensures forall o: int, bps: BurnRate | FilteredShare(uids, weights, groups, o, bps) ::
      o in us && ShareWithin(ws[IndexOf(us, o)], Total(ws), |uids|, bps)
  {
    assert forall k | 0 <= k < |uids| :: uids[k] in uids;
    EncodeAccepts(uids, weights, groups);
    MaxOfUnit(weights);
    var scaled := Scaled(weights, Max(weights));
    var encoded := Compact(uids, Units(scaled, GroupPositions(uids, groups)));
    us, ws := encoded.0, encoded.1;
    EncodedVote(uids, weights, groups, scaled, us, ws);
    forall o: int, bps: BurnRate | FilteredShare(uids, weights, groups, o, bps)
      ensures o in us && ShareWithin(ws[IndexOf(us, o)], Total(ws), |uids|, bps)
    {
      EncodedShare(uids, weights, groups, scaled, us, ws, o, bps);
    }
  }

  // -- the main theorem --------------------------------------------------

  /** What the raw vector of an owner-vote network turns into: a unit vector with the owner's exact share. */
  ghost predicate RoutedVector(c: seq<real>, earned: seq<real>, ownerUid: nat, burnBps: BurnRate) {
    && |c| == |earned| && ownerUid < |c| && Sum(c) == 1.0
    && (forall k | 0 <= k < |c| :: c[k] >= 0.0)
    && (forall k | 0 <= k < |c| && c[k] > 0.0 && (burnBps == 0 || k != ownerUid) ::
          burnBps != FULL_BURN_BPS && earned[k] > 0.0)
    && (0 < burnBps < FULL_BURN_BPS ==> c[ownerUid] == burnBps as real / 10000.0)
  }

  lemma OneHot(size: nat, ownerUid: nat)
    requires ownerUid < size
    ensures var w := seq(size, uid => if uid == ownerUid then 1.0 else 0.0); Sum(w) == 1.0
  {
    var w, zeros := seq(size, uid => if uid == ownerUid then 1.0 else 0.0), seq(size, _ => 0.0);
    SumScale(zeros, zeros, 0.0);
    SumUpdate(zeros, ownerUid, 1.0);
    assert w == zeros[ownerUid := 1.0];
  }

  lemma VoteNetworkVector(earned: seq<real>, ownerUid: nat, rate: BurnRate)
    requires ownerUid < |earned| && VoteNetworkWeights(earned, ownerUid, |earned|, rate).Ok?
    ensures var (weights, burnBps) := VoteNetworkWeights(earned, ownerUid, |earned|, rate).value;
      EmissionCandidate(weights).Some? && RoutedVector(EmissionCandidate(weights).value, earned, ownerUid, burnBps)
  {
    var (weights, burnBps) := VoteNetworkWeights(earned, ownerUid, |earned|, rate).value;
    if burnBps == 0 {
      CandidateFacts(weights);
    } else if burnBps < FULL_BURN_BPS {
      BurnVector(earned, ownerUid, burnBps);
      UnitCandidate(weights);
    } else {
      OneHot(|earned|, ownerUid);
      UnitCandidate(weights);
    }
  }

  /** A recipient's identity survives the recheck on the facts it was planned from. */
  lemma RecipientResolves(network: Network, chain: string, netuid: int, snapshot: ChainSnapshot,
                          localHotkeys: seq<string>)
    requires Distinct(localHotkeys) && LocalOwnerUid(network, chain, netuid, snapshot, localHotkeys).Ok?
    ensures var uid := LocalOwnerUid(network, chain, netuid, snapshot, localHotkeys).value;
      ResolveOwnerUid(network, chain, netuid, localHotkeys, localHotkeys[uid]) == Ok(uid)
  {
    var uid := LocalOwnerUid(network, chain, netuid, snapshot, localHotkeys).value;
    IndexOfDistinct(localHotkeys, uid);
  }

  /** A vector whose only positive entry is the owner's encodes to exactly the owner vote. */
  lemma OwnerVoteOnly(us: seq<int>, ws: seq<int>, owner: nat)
    requires |us| == |ws| && Distinct(us) && U16_MAX in ws && forall p | 0 <= p < |us| :: us[p] == owner
    ensures us == [owner] && ws == [U16_MAX]
  {
    assert |us| == 1 by {
      CountDistinct(us);
      assert us[0] in us;
      assert (set u | u in us) == {owner};
    }
  }

  lemma VotePasses(recipient: Recipient, chain: string, netuid: int, hotkeys: seq<string>, earned: seq<real>,
                   c: seq<real>, groups: seq<seq<int>>, us: seq<int>, ws: seq<int>)
    requires ResolveOwnerUid(recipient.network, chain, netuid, hotkeys, recipient.hotkey) == Ok(recipient.uid)
    requires |c| == |hotkeys| && RoutedVector(c, earned, recipient.uid, recipient.burnBps) && VoteOf(c, groups, us, ws)
    requires recipient.uid in recipient.withheld
    requires forall k | k in recipient.withheld && k < |earned| :: earned[k] <= 0.0
    requires forall g | g in groups :: recipient.uid !in g
    ensures RecheckOwnerVote(recipient, chain, netuid, hotkeys, us, ws, Some(1), Some(1.0)).None?
  {
    if recipient.burnBps == FULL_BURN_BPS {
      OwnerVoteOnly(us, ws, recipient.uid);
    } else {
      if recipient.burnBps > 0 {
        assert HoldsShare(c, groups, recipient.uid, recipient.burnBps);
      }
      assert BurnShareHolds(recipient, |hotkeys|, us, ws);
    }
  }

  /** The facts a running validator plans on: aligned scores, distinct hotkeys, disjoint pools. */
  ghost predicate Aligned(a: Attempt) {
    |a.scores| == |a.localHotkeys| && Distinct(a.localHotkeys) && DisjointGroups(a.pools)
  }

  lemma RoutedRecipient(a: Attempt, snapshot: ChainSnapshot, network: Network)
    requires |a.scores| == |a.localHotkeys| && PlanRecipient(a, snapshot, network).Ok?
    ensures var (r, weights, _) := PlanRecipient(a, snapshot, network).value;
      && EmissionCandidate(weights).Some?
      && RoutedVector(EmissionCandidate(weights).value, Earned(a.scores, r.withheld), r.uid, r.burnBps)
  {
    var r := PlanRecipient(a, snapshot, network).value.0;
    var earned := Earned(a.scores, r.withheld);
    var scored := a.mode.Scored? && AnyPositive(earned);
    var rate := if scored && a.commitment.Some? then ObservedBurnRate(a.commitment, snapshot).value else FULL_BURN_BPS;
    VoteNetworkVector(earned, r.uid, rate);
  }

  lemma RecipientIdentity(a: Attempt, snapshot: ChainSnapshot, network: Network)
    requires Distinct(a.localHotkeys) && PlanRecipient(a, snapshot, network).Ok?
    ensures var r := PlanRecipient(a, snapshot, network).value.0;
      && r.uid in r.withheld
      && ResolveOwnerUid(r.network, a.chain, a.netuid, a.localHotkeys, r.hotkey) == Ok(r.uid)
  {
    RecipientResolves(network, a.chain, a.netuid, snapshot, a.localHotkeys);
  }

  /** A plan with a recipient is the one its network, snapshot and commitment route. */
  lemma PlanIsRouted(a: Attempt, plan: Plan)
    requires PlanEmission(a) == Ok(plan) && plan.recipient.Some?
    ensures a.snapshot.Some? && a.network.Some? && PlanRecipient(a, a.snapshot.value, a.network.value).Ok?
    ensures var (r, weights, _) := PlanRecipient(a, a.snapshot.value, a.network.value).value;
      plan.recipient == Some(r) && plan.weights == weights
          && plan.groups == PoolUids(a.pools, a.localHotkeys, r.withheld)
  {
  }

  lemma RoutedPlan(a: Attempt, plan: Plan)
    requires Aligned(a) && PlanEmission(a) == Ok(plan) && plan.recipient.Some?
    ensures var r := plan.recipient.value;
      && EmissionCandidate(plan.weights).Some?
      && RoutedVector(EmissionCandidate(plan.weights).value, Earned(a.scores, r.withheld), r.uid, r.burnBps)
      && ResolveOwnerUid(r.network, a.chain, a.netuid, a.localHotkeys, r.hotkey) == Ok(r.uid)
      && r.uid in r.withheld && plan.groups == PoolUids(a.pools, a.localHotkeys, r.withheld)
  {
    PlanIsRouted(a, plan);
    RoutedRecipient(a, a.snapshot.value, a.network.value);
    RecipientIdentity(a, a.snapshot.value, a.network.value);
  }

  lemma PassesOnlyAtOne(recipient: Recipient, chain: string, netuid: int, hotkeys: seq<string>, us: seq<int>,
                        ws: seq<int>,
                        minAllowed: nat, limit: real)
    requires RecheckOwnerVote(recipient, chain, netuid, hotkeys, us, ws, Some(minAllowed), Some(limit)).None?
    ensures minAllowed == 1 && limit == 1.0
  {
  }

  /** The planner and the encoder always build a vote the recheck accepts, and the recheck accepts it
      exactly at chain minimum one and limit one. */
  lemma PlannedVotePassesRecheck(a: Attempt, plan: Plan, minAllowed: nat, limit: real)
    requires Aligned(a) && PlanEmission(a) == Ok(plan) && plan.recipient.Some?
    ensures EmissionCandidate(plan.weights).Some?
    ensures
      var n := |a.localHotkeys|;
      var sent := ChainWeightVector(EmissionCandidate(plan.weights).value, Range(n), n, minAllowed, limit, plan.groups);
      && (minAllowed == 1 && limit == 1.0 ==> sent.Ok?)
      && (sent.Ok? ==>
            var refusal := RecheckOwnerVote(plan.recipient.value, a.chain, a.netuid, a.localHotkeys,
                                            sent.value.0, sent.value.1, Some(minAllowed), Some(limit));
            refusal.None? <==> minAllowed == 1 && limit == 1.0)
  {
    RoutedPlan(a, plan);
    var r := plan.recipient.value;
    var c, earned := EmissionCandidate(plan.weights).value, Earned(a.scores, r.withheld);
    PlannedGroups(a.pools, a.localHotkeys, r.withheld);
    if minAllowed == 1 && limit == 1.0 {
      var us, ws := EncodedUnitVector(c, plan.groups);
      VotePasses(r, a.chain, a.netuid, a.localHotkeys, earned, c, plan.groups, us, ws);
    } else {
      var n := |a.localHotkeys|;
      var sent := ChainWeightVector(c, Range(n), n, minAllowed, limit, plan.groups);
      if sent.Ok? {
        var (us, ws) := sent.value;
        if RecheckOwnerVote(r, a.chain, a.netuid, a.localHotkeys, us, ws, Some(minAllowed), Some(limit)).None? {
          PassesOnlyAtOne(r, a.chain, a.netuid, a.localHotkeys, us, ws, minAllowed, limit);
        }
      }
    }
  }

  /** A vote that passes both rechecks pays, at the submission block, only hotkeys it was prepared for,
      and gives earned weight to no UID the chain would withhold. */
  lemma SentVotePaysOnlyEarners(
    recipient: Recipient, chain: string, netuid: int, hotkeys: seq<string>, us: seq<int>, ws: seq<int>,
    minAllowed: Option<int>, limit: Option<real>, state: OwnerState, block: int)
    requires recipient.uid in recipient.withheld
    requires RecheckOwnerVote(recipient, chain, netuid, hotkeys, us, ws, minAllowed, limit).None?
    requires RecheckOwnerState(recipient, Some(state), Some(block), hotkeys, us).None?
    ensures state.block == block && recipient.uid < |state.hotkeys| && state.hotkeys[recipient.uid] == state.ownerHotkey
    ensures forall u | u in us ::
      && 0 <= u < |state.hotkeys| && u < |hotkeys| && state.hotkeys[u] == hotkeys[u]
      && (u != recipient.uid ==> state.coldkeys[u] != state.ownerColdkey)
      && (u == recipient.uid ==> recipient.burnBps > 0)
  {
    forall u | u in us + [recipient.uid]
      ensures RecheckUid(recipient, state, hotkeys, u).None?
    {
    }
    assert recipient.uid in us + [recipient.uid];
    forall u | u in us
      ensures 0 <= u < |state.hotkeys| && u < |hotkeys| && state.hotkeys[u] == hotkeys[u]
      ensures u != recipient.uid ==> state.coldkeys[u] != state.ownerColdkey
      ensures u == recipient.uid ==> recipient.burnBps > 0
    {
      assert u in us + [recipient.uid];
    }
  }

  /** An attempt is due exactly when the validator holds a permit and the next eligible block, the one after a whole
      rate limit since its last update, is reached. */
  lemma DueFromNextEligibleBlock(a: Attempt, plan: Plan)
    requires PlanEmission(a) == Ok(plan)
    ensures a.snapshot.Some?
    ensures var s, uid := a.snapshot.value, a.validatorUid;
      && 0 <= uid < |s.permits| && uid < |s.lastUpdates| && plan.permit == s.permits[uid]
      && plan.nextEligibleBlock == s.lastUpdates[uid] + s.rateLimit + 1
    ensures plan.due <==> plan.permit && a.block >= plan.nextEligibleBlock
    ensures plan.commitmentOwner.Some? ==> plan.due && plan.weights == [] && plan.recipient.None?
  {
  }
}
