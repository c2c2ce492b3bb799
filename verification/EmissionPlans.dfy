/** What a plan pays, in the attempt's own terms: the published rate, the vector it routes, and what is refused. */
module EmissionPlans {
  import opened Wrappers
  import opened BurnCommitment
  import opened Sums
  import opened Sorting
  import opened WeightProcessing
  import opened WeightRounding
  import opened ChainWeights
  import opened EmissionPolicy
  import opened EmissionSafety

  /** `uid` scored, and neither its hotkey nor its coldkey is the subnet owner's. */
  ghost predicate Earns(a: Attempt, snapshot: ChainSnapshot, uid: nat) {
    && uid < |a.scores| && a.scores[uid] > 0.0
    && uid < |snapshot.hotkeys| && snapshot.hotkeys[uid] != snapshot.ownerHotkey
    && uid < |snapshot.coldkeys| && snapshot.coldkeys[uid] != snapshot.ownerColdkey
  }

  ghost predicate SomeoneEarns(a: Attempt, snapshot: ChainSnapshot) {
    a.mode.Scored? && exists uid: nat :: Earns(a, snapshot, uid)
  }

  /** `uid` is where the owner's hotkey stands, and it stands nowhere else. */
  ghost predicate OwnerAt(snapshot: ChainSnapshot, uid: nat) {
    && uid < |snapshot.hotkeys| && snapshot.hotkeys[uid] == snapshot.ownerHotkey
    && forall other | 0 <= other < |snapshot.hotkeys| && other != uid :: snapshot.hotkeys[other] != snapshot.ownerHotkey
  }

  lemma OwnerResolves(network: Network, chain: string, netuid: int, snapshot: ChainSnapshot)
    ensures
      var resolved := ResolveOwnerUid(network, chain, netuid, snapshot.hotkeys, snapshot.ownerHotkey);
      && (resolved.Ok? ==> OwnerAt(snapshot, resolved.value))
      && (resolved.Ok? <==> OwnerNamed(network, chain, netuid, snapshot) && exists uid: nat :: OwnerAt(snapshot, uid))
  {
    if snapshot.ownerHotkey in snapshot.hotkeys {
      var first := IndexOf(snapshot.hotkeys, snapshot.ownerHotkey);
      var later := snapshot.hotkeys[first + 1..];
      forall other | 0 <= other < |snapshot.hotkeys| && other != first && snapshot.ownerHotkey !in later
        ensures snapshot.hotkeys[other] != snapshot.ownerHotkey
      {
        assert other < first ==> snapshot.hotkeys[other] in snapshot.hotkeys[..first];
        assert other > first ==> snapshot.hotkeys[other] == later[other - first - 1];
      }
      if snapshot.ownerHotkey in later {
        var j :| 0 <= j < |later| && later[j] == snapshot.ownerHotkey;
        assert snapshot.hotkeys[first + 1 + j] == snapshot.ownerHotkey;
      } else {
        assert OwnerAt(snapshot, first);
      }
    }
  }

  /** The chain and the owner are the ones the network names. */
  ghost predicate OwnerNamed(network: Network, chain: string, netuid: int, snapshot: ChainSnapshot) {
    && snapshot.ownerHotkey != ""
    && (network.Mainnet? ==>
          chain == MAINNET_GENESIS_HASH && netuid == SN30_NETUID && snapshot.ownerHotkey == SN30_OWNER_HOTKEY)
    && (network.Testnet? ==> chain != MAINNET_GENESIS_HASH)
  }

  lemma LocalOwner(a: Attempt, snapshot: ChainSnapshot, network: Network)
    ensures var resolved := LocalOwnerUid(network, a.chain, a.netuid, snapshot, a.localHotkeys);
      && (resolved.Ok? ==> OwnerAt(snapshot, resolved.value))
      && (resolved.Ok? <==> OwnerNamed(network, a.chain, a.netuid, snapshot) && exists uid: nat ::
            OwnerAt(snapshot, uid) && uid < |a.localHotkeys| && a.localHotkeys[uid] == snapshot.ownerHotkey)
  {
    OwnerResolves(network, a.chain, a.netuid, snapshot);
    var resolved := ResolveOwnerUid(network, a.chain, a.netuid, snapshot.hotkeys, snapshot.ownerHotkey);
    forall uid: nat | OwnerAt(snapshot, uid) && resolved.Ok? ensures uid == resolved.value {
      assert OwnerAt(snapshot, resolved.value);
    }
  }

  // -- the withheld UIDs and the earners -----------------------------------

  /** The owner earns nothing, and on a scored attempt no hotkey of its coldkey does. */
  ghost predicate Barred(a: Attempt, snapshot: ChainSnapshot, ownerUid: nat, uid: nat) {
    uid == ownerUid || (a.mode.Scored? && uid < |snapshot.coldkeys| && snapshot.coldkeys[uid] == snapshot.ownerColdkey)
  }

  ghost predicate Bars(a: Attempt, snapshot: ChainSnapshot, ownerUid: nat, withheld: set<nat>) {
    forall uid: nat :: uid in withheld <==> Barred(a, snapshot, ownerUid, uid)
  }

  lemma EarnersScore(a: Attempt, snapshot: ChainSnapshot, ownerUid: nat, withheld: set<nat>)
    requires a.mode.Scored? && !ScoreOnMovedUid(a, snapshot) && |snapshot.coldkeys| == |snapshot.hotkeys|
    requires OwnerAt(snapshot, ownerUid) && Bars(a, snapshot, ownerUid, withheld)
    ensures forall uid: nat | uid < |a.scores| :: Earns(a, snapshot, uid) <==> Earned(a.scores, withheld)[uid] > 0.0
    ensures AnyPositive(Earned(a.scores, withheld)) <==> SomeoneEarns(a, snapshot)
  {
    var earned := Earned(a.scores, withheld);
    forall uid: nat | uid < |a.scores| ensures Earns(a, snapshot, uid) <==> earned[uid] > 0.0 {
      assert uid in withheld <==> Barred(a, snapshot, ownerUid, uid);
    }
    if uid: nat :| Earns(a, snapshot, uid) {
      assert earned[uid] > 0.0;
    }
  }

  /** Whom a recipient is, and whom it lets earn nothing. */
  ghost predicate BurnsToOwner(a: Attempt, snapshot: ChainSnapshot, r: Recipient) {
    && a.network == Some(r.network) && OwnerNamed(r.network, a.chain, a.netuid, snapshot)
    && OwnerAt(snapshot, r.uid) && r.uid < |a.localHotkeys|
    && a.localHotkeys[r.uid] == r.hotkey == snapshot.ownerHotkey && r.ownerColdkey == snapshot.ownerColdkey
    && (a.mode.Scored? ==> |snapshot.coldkeys| == |snapshot.hotkeys|)
    && Bars(a, snapshot, r.uid, r.withheld)
  }

  lemma RecipientIsOwner(a: Attempt, snapshot: ChainSnapshot, network: Network)
    requires a.network == Some(network) && PlanRecipient(a, snapshot, network).Ok?
    ensures BurnsToOwner(a, snapshot, PlanRecipient(a, snapshot, network).value.0)
  {
    LocalOwner(a, snapshot, network);
  }

  lemma FollowsHotkeys(a: Attempt, plan: Plan)
    requires PlanEmission(a) == Ok(plan)
    ensures a.snapshot.Some? && !(a.mode.Scored? && ScoreOnMovedUid(a, a.snapshot.value))
  {
  }

  /** A routed plan burns to the subnet's owner. */
  lemma RoutedToOwner(a: Attempt, plan: Plan)
    requires PlanEmission(a) == Ok(plan) && plan.recipient.Some?
    ensures a.snapshot.Some? && BurnsToOwner(a, a.snapshot.value, plan.recipient.value)
  {
    PlanIsRouted(a, plan);
    RecipientIsOwner(a, a.snapshot.value, a.network.value);
  }

  // -- the rate ---------------------------------------------------------------

  lemma PositiveTotal(earned: seq<real>, ownerUid: nat)
    requires AnyPositive(earned) && ownerUid < |earned| && earned[ownerUid] <= 0.0
    ensures Sum(Clamped(earned)[ownerUid := 0.0]) > 0.0
  {
    var k :| 0 <= k < |earned| && earned[k] > 0.0;
    var rest := Clamped(earned)[ownerUid := 0.0];
    SumNonNegative(rest);
    assert 0.0 < rest[k] <= Sum(rest);
  }

  lemma NetworkRate(earned: seq<real>, ownerUid: nat, size: nat, rate: BurnRate)
    requires VoteNetworkWeights(earned, ownerUid, size, rate).Ok?
    requires ownerUid < |earned| ==> earned[ownerUid] <= 0.0
    ensures AnyPositive(earned) ==> VoteNetworkWeights(earned, ownerUid, size, rate).value.1 == rate
    ensures rate == FULL_BURN_BPS ==> VoteNetworkWeights(earned, ownerUid, size, rate).value.1 == rate
  {
    if AnyPositive(earned) && 0 < rate < FULL_BURN_BPS {
      PositiveTotal(earned, ownerUid);
    }
  }

  /** The rate routed: the published one for a vote that someone earns, else the whole vote. */
  function RateOf(a: Attempt, earners: bool): BurnRate {
    if earners && a.commitment.Some? then ParseBurnRate(a.commitment.value.text) else FULL_BURN_BPS
  }

  lemma RecipientRate(a: Attempt, snapshot: ChainSnapshot, network: Network)
    requires a.network == Some(network) && PlanRecipient(a, snapshot, network).Ok?
    requires a.mode.Scored? ==> !ScoreOnMovedUid(a, snapshot)
    ensures var (r, _, waits) := PlanRecipient(a, snapshot, network).value;
      && (waits <==> SomeoneEarns(a, snapshot) && a.commitment.None?)
      && r.burnBps == RateOf(a, SomeoneEarns(a, snapshot))
  {
    RecipientIsOwner(a, snapshot, network);
    var r := PlanRecipient(a, snapshot, network).value.0;
    var earned := Earned(a.scores, r.withheld);
    if a.mode.Scored? {
      EarnersScore(a, snapshot, r.uid, r.withheld);
    }
    assert r.uid in r.withheld by {
      assert Barred(a, snapshot, r.uid, r.uid);
    }
    NetworkRate(earned, r.uid, |a.localHotkeys|, RateOf(a, SomeoneEarns(a, snapshot)));
  }

  lemma RoutedNeedsNoRead(a: Attempt, plan: Plan)
    requires PlanEmission(a) == Ok(plan) && plan.recipient.Some?
    ensures a.snapshot.Some? && a.network.Some? && PlanRecipient(a, a.snapshot.value, a.network.value).Ok?
    ensures !PlanRecipient(a, a.snapshot.value, a.network.value).value.2
    ensures plan.burnBps == Some(plan.recipient.value.burnBps)
  {
  }

  lemma RoutedRate(a: Attempt, plan: Plan)
    requires PlanEmission(a) == Ok(plan) && plan.recipient.Some?
    ensures a.snapshot.Some? && plan.burnBps == Some(plan.recipient.value.burnBps)
    ensures SomeoneEarns(a, a.snapshot.value) ==> a.commitment.Some?
    ensures plan.recipient.value.burnBps == RateOf(a, SomeoneEarns(a, a.snapshot.value))
  {
    FollowsHotkeys(a, plan);
    PlanIsRouted(a, plan);
    RoutedNeedsNoRead(a, plan);
    RecipientRate(a, a.snapshot.value, a.network.value);
  }

  /** A routed plan burns a rate short of the whole vote exactly when someone earns and the owner's commitment is the
      text of that rate. */
  lemma PlannedRateExactly(a: Attempt, plan: Plan, burnBps: BurnRate)
    requires PlanEmission(a) == Ok(plan) && plan.recipient.Some? && burnBps < FULL_BURN_BPS
    ensures a.snapshot.Some?
    ensures plan.burnBps == Some(burnBps) <==>
      && SomeoneEarns(a, a.snapshot.value)
      && a.commitment.Some? && a.commitment.value.text == Some(BurnCommitmentText(burnBps))
  {
    RoutedRate(a, plan);
    if a.commitment.Some? {
      PublishedRateExactly(a.commitment.value.text, burnBps);
    }
  }

  // -- the vector -------------------------------------------------------------

  /** The score a UID is paid by. */
  ghost function EarnedScore(a: Attempt, snapshot: ChainSnapshot, uid: nat): real {
    if Earns(a, snapshot, uid) then a.scores[uid] else 0.0
  }

  /** `p` is the part of `total` that `k` times `x` comes to. */
  ghost predicate IsShare(p: real, total: real, k: real, x: real) {
    p * total == k * x
  }

  ghost predicate CrossEqual(p: real, y: real, q: real, x: real) {
    p * y == q * x
  }

  lemma SharesCross(p: real, q: real, x: real, y: real, k: real, total: real)
    requires total > 0.0 && IsShare(p, total, k, x) && IsShare(q, total, k, y)
    ensures CrossEqual(p, y, q, x)
  {
    assert (p * y - q * x) * total == (p * total) * y - (q * total) * x;
    assert (k * x) * y == (k * y) * x;
    assert (p * y - q * x) * total == 0.0;
  }

  lemma ShareAt(e: seq<real>, k: real, total: real, i: nat)
    requires total > 0.0 && i < |e|
    ensures IsShare(DivideAll(ScaleAll(e, k), total)[i], total, k, e[i])
  {
    DividedIndex(ScaleAll(e, k), total, i);
    Cancel(ScaleAll(e, k)[i], total);
  }

  ghost predicate InRatio(w: seq<real>, scores: seq<real>, i: nat, j: nat) {
    i < |w| && j < |w| && |w| == |scores| && CrossEqual(w[i], scores[j], w[j], scores[i])
  }

  lemma SharesInRatio(e: seq<real>, k: real, total: real, i: nat, j: nat)
    requires total > 0.0 && i < |e| && j < |e|
    ensures InRatio(DivideAll(ScaleAll(e, k), total), e, i, j)
  {
    ShareAt(e, k, total, i);
    ShareAt(e, k, total, j);
    var shares := DivideAll(ScaleAll(e, k), total);
    SharesCross(shares[i], shares[j], e[i], e[j], k, total);
  }

  lemma OwnerApart(shares: seq<real>, e: seq<real>, ownerUid: nat, w: seq<real>, scores: seq<real>, i: nat, j: nat)
    requires ownerUid < |e| == |w| == |scores| == |shares| && i < |e| && j < |e| && i != ownerUid && j != ownerUid
    requires w == shares[ownerUid := w[ownerUid]] && e == scores[ownerUid := e[ownerUid]] && InRatio(shares, e, i, j)
    ensures InRatio(w, scores, i, j)
  {
  }

  /** The vector a burn between nothing and everything routes: the owner its rate, the others in the ratio of scores. */
  ghost predicate SharedByScore(w: seq<real>, scores: seq<real>, ownerUid: nat, burnBps: BurnRate) {
    && |w| == |scores| && ownerUid < |w| && Sum(w) == 1.0 && w[ownerUid] == burnBps as real / 10000.0
    && forall i: nat, j: nat | i < |w| && j < |w| && i != ownerUid && j != ownerUid :: InRatio(w, scores, i, j)
  }

  lemma BurnedInRatio(earned: seq<real>, ownerUid: nat, burnBps: BurnRate, i: nat, j: nat)
    requires ownerUid < |earned| && i < |earned| && j < |earned| && i != ownerUid && j != ownerUid
    requires OwnerBurnWeights(earned, ownerUid, burnBps).Ok? && OwnerBurnWeights(earned, ownerUid, burnBps).value.Some?
    ensures InRatio(OwnerBurnWeights(earned, ownerUid, burnBps).value.value, Clamped(earned), i, j)
  {
    var e, k := Clamped(earned)[ownerUid := 0.0], 1.0 - burnBps as real / 10000.0;
    SharesInRatio(e, k, Sum(e), i, j);
    OwnerApart(DivideAll(ScaleAll(e, k), Sum(e)), e, ownerUid,
               OwnerBurnWeights(earned, ownerUid, burnBps).value.value, Clamped(earned), i, j);
  }

  lemma BurnShared(earned: seq<real>, ownerUid: nat, burnBps: BurnRate)
    requires ownerUid < |earned| && 0 < burnBps < FULL_BURN_BPS
    requires OwnerBurnWeights(earned, ownerUid, burnBps).Ok? && OwnerBurnWeights(earned, ownerUid, burnBps).value.Some?
    ensures SharedByScore(OwnerBurnWeights(earned, ownerUid, burnBps).value.value, Clamped(earned), ownerUid, burnBps)
  {
    BurnVector(earned, ownerUid, burnBps);
    forall i: nat, j: nat | i < |earned| && j < |earned| && i != ownerUid && j != ownerUid
      ensures InRatio(OwnerBurnWeights(earned, ownerUid, burnBps).value.value, Clamped(earned), i, j)
    {
      BurnedInRatio(earned, ownerUid, burnBps, i, j);
    }
  }

  /** The vector of each rate. */
  ghost predicate Routes(a: Attempt, snapshot: ChainSnapshot, r: Recipient, w: seq<real>) {
    if r.burnBps == FULL_BURN_BPS then w == seq(|a.localHotkeys|, uid => if uid == r.uid then 1.0 else 0.0)
    else if r.burnBps == 0 then
      && |w| == |a.scores|
      && forall uid: nat | uid < |w| :: w[uid] == if Barred(a, snapshot, r.uid, uid) then 0.0 else a.scores[uid]
    else SharedByScore(w, seq(|a.scores|, uid requires 0 <= uid => EarnedScore(a, snapshot, uid)), r.uid, r.burnBps)
  }

  lemma NetworkVector(earned: seq<real>, ownerUid: nat, size: nat, rate: BurnRate)
    requires VoteNetworkWeights(earned, ownerUid, size, rate).Ok?
    requires ownerUid < |earned| ==> earned[ownerUid] <= 0.0
    ensures var (w, burnBps) := VoteNetworkWeights(earned, ownerUid, size, rate).value;
      && (burnBps == 0 ==> w == earned)
      && (burnBps == FULL_BURN_BPS ==> w == seq(size, uid => if uid == ownerUid then 1.0 else 0.0))
      && (0 < burnBps < FULL_BURN_BPS ==> SharedByScore(w, Clamped(earned), ownerUid, burnBps))
  {
    if 0 < rate < FULL_BURN_BPS && OwnerBurnWeights(earned, ownerUid, rate).value.Some? {
      BurnShared(earned, ownerUid, rate);
    }
  }

  lemma ClampedEarned(a: Attempt, snapshot: ChainSnapshot, ownerUid: nat, withheld: set<nat>)
    requires a.mode.Scored? && !ScoreOnMovedUid(a, snapshot) && |snapshot.coldkeys| == |snapshot.hotkeys|
    requires OwnerAt(snapshot, ownerUid) && Bars(a, snapshot, ownerUid, withheld)
    ensures Clamped(Earned(a.scores, withheld))
         == seq(|a.scores|, uid requires 0 <= uid => EarnedScore(a, snapshot, uid))
  {
    EarnersScore(a, snapshot, ownerUid, withheld);
  }

  lemma RecipientVector(a: Attempt, snapshot: ChainSnapshot, network: Network)
    requires a.network == Some(network) && PlanRecipient(a, snapshot, network).Ok?
    requires a.mode.Scored? ==> !ScoreOnMovedUid(a, snapshot)
    ensures var (r, w, _) := PlanRecipient(a, snapshot, network).value; Routes(a, snapshot, r, w)
  {
    RecipientIsOwner(a, snapshot, network);
    RecipientRate(a, snapshot, network);
    var (r, w, _) := PlanRecipient(a, snapshot, network).value;
    var earned := Earned(a.scores, r.withheld);
    assert r.uid in r.withheld by {
      assert Barred(a, snapshot, r.uid, r.uid);
    }
    NetworkVector(earned, r.uid, |a.localHotkeys|, RateOf(a, SomeoneEarns(a, snapshot)));
    if 0 < r.burnBps < FULL_BURN_BPS {
      ClampedEarned(a, snapshot, r.uid, r.withheld);
    }
  }

  /** The vector of a routed plan: the owner alone at the whole vote; the scores, with the barred UIDs at nothing, at
      none; in between a unit vector with exactly the rate on the owner and the rest in the ratio of earned scores. */
  lemma PlannedVectorExactly(a: Attempt, plan: Plan)
    requires PlanEmission(a) == Ok(plan) && plan.recipient.Some?
    ensures a.snapshot.Some? && Routes(a, a.snapshot.value, plan.recipient.value, plan.weights)
  {
    FollowsHotkeys(a, plan);
    PlanIsRouted(a, plan);
    RecipientVector(a, a.snapshot.value, a.network.value);
  }

  // -- what is refused --------------------------------------------------------

  /** The commitment is the owner's, was read at the snapshot's block and is recorded no later. */
  ghost predicate Current(c: OwnerCommitment, snapshot: ChainSnapshot) {
    && c.hotkey == snapshot.ownerHotkey && c.block == snapshot.block
    && (c.recordBlock.Some? ==> c.recordBlock.value <= c.block)
  }

  /** The owner, its coldkey and its commitment are what an owner-vote network needs. */
  ghost predicate OwnerKnown(a: Attempt, snapshot: ChainSnapshot, network: Network) {
    && OwnerNamed(network, a.chain, a.netuid, snapshot) && snapshot.ownerColdkey != ""
    && (exists uid: nat ::
          OwnerAt(snapshot, uid) && uid < |a.localHotkeys| && a.localHotkeys[uid] == snapshot.ownerHotkey)
    && (a.mode.Scored? ==> |snapshot.coldkeys| == |snapshot.hotkeys|)
    && (SomeoneEarns(a, snapshot) && a.commitment.Some? ==> Current(a.commitment.value, snapshot))
  }

  ghost predicate ValidatorKnown(a: Attempt, snapshot: ChainSnapshot) {
    var uid := a.validatorUid;
    && 0 <= uid < |snapshot.hotkeys| && snapshot.hotkeys[uid] == a.validatorHotkey != ""
    && uid < |snapshot.permits| && uid < |snapshot.lastUpdates|
    && 0 <= snapshot.lastUpdates[uid] <= a.block && snapshot.rateLimit >= 0
  }

  lemma NetworkAccepts(earned: seq<real>, ownerUid: nat, size: nat, rate: BurnRate)
    requires ownerUid < size == |earned|
    ensures VoteNetworkWeights(earned, ownerUid, size, rate).Ok?
  {
  }

  lemma RecipientAccepted(a: Attempt, snapshot: ChainSnapshot, network: Network)
    requires a.network == Some(network) && |a.scores| == |a.localHotkeys|
    requires a.mode.Scored? ==> !ScoreOnMovedUid(a, snapshot)
    ensures PlanRecipient(a, snapshot, network).Ok? <==> OwnerKnown(a, snapshot, network)
  {
    LocalOwner(a, snapshot, network);
    var local := LocalOwnerUid(network, a.chain, a.netuid, snapshot, a.localHotkeys);
    if local.Ok? && snapshot.ownerColdkey != "" && (a.mode.Scored? ==> |snapshot.coldkeys| == |snapshot.hotkeys|) {
      var ownerUid := local.value;
      var withheld := if a.mode.Scored? then ChainWithheldUids(snapshot, ownerUid).value else {ownerUid};
      var earned := Earned(a.scores, withheld);
      if a.mode.Scored? {
        EarnersScore(a, snapshot, ownerUid, withheld);
      }
      NetworkAccepts(earned, ownerUid, |a.localHotkeys|, RateOf(a, SomeoneEarns(a, snapshot)));
    }
  }

  /** Every UID that scored holds the same hotkey locally and in the snapshot. */
  ghost predicate HotkeysKept(a: Attempt, snapshot: ChainSnapshot) {
    forall uid: nat | uid < |a.scores| && a.scores[uid] > 0.0 ::
      uid < |a.localHotkeys| && uid < |snapshot.hotkeys| && a.localHotkeys[uid] == snapshot.hotkeys[uid]
  }

  /** A plan is made exactly from a snapshot of this block on which every scored UID still holds its hotkey, the
      validator is known, and on an owner-vote network the owner is too. */
  lemma PlannedExactly(a: Attempt)
    requires |a.scores| == |a.localHotkeys|
    ensures PlanEmission(a).Ok? <==>
      && a.snapshot.Some? && a.snapshot.value.block == a.block && ValidatorKnown(a, a.snapshot.value)
      && (a.mode.Scored? ==> HotkeysKept(a, a.snapshot.value))
      && (a.mode.OwnerVote? ==> a.network.Some?)
      && (a.network.Some? ==> OwnerKnown(a, a.snapshot.value, a.network.value))
  {
    assert a.snapshot.Some? ==> (HotkeysKept(a, a.snapshot.value) <==> !ScoreOnMovedUid(a, a.snapshot.value));
    if a.snapshot.Some? && a.network.Some? && (a.mode.Scored? ==> !ScoreOnMovedUid(a, a.snapshot.value)) {
      RecipientAccepted(a, a.snapshot.value, a.network.value);
    }
  }

  lemma ReadChangesNoEarner(a: Attempt, snapshot: ChainSnapshot, c: OwnerCommitment)
    ensures SomeoneEarns(a.(commitment := Some(c)), snapshot) <==> SomeoneEarns(a, snapshot)
  {
    assert forall uid: nat :: Earns(a.(commitment := Some(c)), snapshot, uid) <==> Earns(a, snapshot, uid);
  }

  lemma SameValidator(a: Attempt, b: Attempt, plan: Plan, again: Plan)
    requires PlanEmission(a) == Ok(plan) && PlanEmission(b) == Ok(again) && a == b.(commitment := a.commitment)
    ensures again.due == plan.due
  {
  }

  /** The plan a commitment was waited for is made exactly when the commitment read is current; any other is refused. */
  lemma CommitmentTakenExactly(a: Attempt, plan: Plan, c: OwnerCommitment)
    requires |a.scores| == |a.localHotkeys| && a.commitment.None? && a.network.Some?
    requires PlanEmission(a) == Ok(plan) && plan.recipient.None?
    ensures a.snapshot.Some?
    ensures
      var again := PlanEmission(a.(commitment := Some(c)));
      && (again.Ok? <==> Current(c, a.snapshot.value))
      && (again.Ok? ==> again.value.recipient.Some? && again.value.due == plan.due)
  {
    WaitsExactly(a, plan);
    PlannedExactly(a);
    var read := a.(commitment := Some(c));
    ReadChangesNoEarner(a, a.snapshot.value, c);
    PlannedExactly(read);
    if PlanEmission(read).Ok? {
      WaitsExactly(read, PlanEmission(read).value);
      SameValidator(a, read, plan, PlanEmission(read).value);
    }
  }

  /** A plan waits for the owner's commitment exactly when someone earns on an owner-vote network and none was read:
      it then has nothing to send. Without a network the scores are the vector. */
  lemma WaitsExactly(a: Attempt, plan: Plan)
    requires PlanEmission(a) == Ok(plan)
    ensures a.snapshot.Some?
    ensures a.network.Some? ==> (plan.recipient.None? <==> SomeoneEarns(a, a.snapshot.value) && a.commitment.None?)
    ensures a.network.Some? && plan.recipient.None? ==>
      && plan.weights == [] && plan.groups == [] && plan.burnBps.None?
      && plan.commitmentOwner == if plan.due then Some(a.snapshot.value.ownerHotkey) else None
    ensures plan.recipient.Some? ==> plan.commitmentOwner.None?
    ensures a.network.None? ==>
      plan.recipient.None? && plan.burnBps.None? && plan.weights == a.scores && plan.commitmentOwner.None?
  {
    FollowsHotkeys(a, plan);
    if a.network.Some? {
      RecipientRate(a, a.snapshot.value, a.network.value);
    }
  }

  // -- the pools --------------------------------------------------------------

  /** `group` holds the pool's local UIDs that are not withheld. */
  ghost predicate HoldsUids(group: seq<int>, pool: seq<string>, hotkeys: seq<string>, withheld: set<nat>) {
    && (forall k | 0 <= k < |group| ::
          0 <= group[k] < |hotkeys| && hotkeys[group[k]] in pool && group[k] !in withheld)
    && forall u: nat | u < |hotkeys| && hotkeys[u] in pool && u !in withheld :: u in group
  }

  /** And lists them in the pool's order. */
  ghost predicate IsGroupOf(group: seq<int>, pool: seq<string>, hotkeys: seq<string>, withheld: set<nat>) {
    && HoldsUids(group, pool, hotkeys, withheld)
    && forall i, j | 0 <= i < j < |group| :: IndexOf(pool, hotkeys[group[i]]) < IndexOf(pool, hotkeys[group[j]])
  }

  lemma IndexInTail(pool: seq<string>, x: string)
    requires Distinct(pool) && pool != [] && x in pool[1..]
    ensures IndexOf(pool, x) == 1 + IndexOf(pool[1..], x)
  {
    var k :| 0 <= k < |pool[1..]| && pool[1..][k] == x;
    assert pool[k + 1] != pool[0];
  }

  lemma TailGroup(rest: seq<int>, pool: seq<string>, hotkeys: seq<string>, withheld: set<nat>)
    requires Distinct(pool) && pool != [] && IsGroupOf(rest, pool[1..], hotkeys, withheld)
    requires pool[0] !in hotkeys || IndexOf(hotkeys, pool[0]) in withheld
    requires Distinct(hotkeys)
    ensures IsGroupOf(rest, pool, hotkeys, withheld)
  {
    forall k | 0 <= k < |rest| ensures IndexOf(pool, hotkeys[rest[k]]) == 1 + IndexOf(pool[1..], hotkeys[rest[k]]) {
      IndexInTail(pool, hotkeys[rest[k]]);
    }
    forall u: nat | u < |hotkeys| && hotkeys[u] in pool && u !in withheld ensures u in rest {
      IndexOfDistinct(hotkeys, u);
    }
  }

  lemma HeadUids(rest: seq<int>, pool: seq<string>, hotkeys: seq<string>, withheld: set<nat>)
    requires Distinct(hotkeys) && pool != [] && HoldsUids(rest, pool[1..], hotkeys, withheld)
    requires pool[0] in hotkeys && IndexOf(hotkeys, pool[0]) !in withheld
    ensures HoldsUids([IndexOf(hotkeys, pool[0])] + rest, pool, hotkeys, withheld)
  {
    var group := [IndexOf(hotkeys, pool[0])] + rest;
    forall u: nat | u < |hotkeys| && hotkeys[u] in pool && u !in withheld ensures u in group {
      IndexOfDistinct(hotkeys, u);
      assert hotkeys[u] == pool[0] ==> u == group[0];
      assert hotkeys[u] != pool[0] ==> hotkeys[u] in pool[1..];
    }
  }

  lemma HeadGroup(rest: seq<int>, pool: seq<string>, hotkeys: seq<string>, withheld: set<nat>)
    requires Distinct(pool) && pool != [] && IsGroupOf(rest, pool[1..], hotkeys, withheld)
    requires pool[0] in hotkeys && HoldsUids([IndexOf(hotkeys, pool[0])] + rest, pool, hotkeys, withheld)
    ensures IsGroupOf([IndexOf(hotkeys, pool[0])] + rest, pool, hotkeys, withheld)
  {
    var group := [IndexOf(hotkeys, pool[0])] + rest;
    forall i, j | 0 <= i < j < |group|
      ensures IndexOf(pool, hotkeys[group[i]]) < IndexOf(pool, hotkeys[group[j]])
    {
      IndexInTail(pool, hotkeys[rest[j - 1]]);
      if i > 0 {
        IndexInTail(pool, hotkeys[rest[i - 1]]);
      }
    }
  }

  lemma {:induction false} UidsAreGroup(pool: seq<string>, hotkeys: seq<string>, withheld: set<nat>)
    requires Distinct(pool) && Distinct(hotkeys)
    ensures IsGroupOf(UidsOf(pool, hotkeys, withheld), pool, hotkeys, withheld)
  {
    if pool != [] {
      UidsAreGroup(pool[1..], hotkeys, withheld);
      var rest := UidsOf(pool[1..], hotkeys, withheld);
      if pool[0] in hotkeys && IndexOf(hotkeys, pool[0]) !in withheld {
        HeadUids(rest, pool, hotkeys, withheld);
        HeadGroup(rest, pool, hotkeys, withheld);
      } else {
        TailGroup(rest, pool, hotkeys, withheld);
      }
    }
  }

  lemma {:induction false} LongGroupKept(pools: seq<seq<string>>, hotkeys: seq<string>, withheld: set<nat>, p: nat)
    requires p < |pools| && |UidsOf(pools[p], hotkeys, withheld)| > 1
    ensures UidsOf(pools[p], hotkeys, withheld) in LongGroups(pools, hotkeys, withheld)
  {
    if p > 0 {
      LongGroupKept(pools[1..], hotkeys, withheld, p - 1);
    }
  }

  lemma {:induction false} LongGroupsAreLong(pools: seq<seq<string>>, hotkeys: seq<string>, withheld: set<nat>)
    ensures forall g | g in LongGroups(pools, hotkeys, withheld) :: |g| > 1
  {
    if pools != [] {
      LongGroupsAreLong(pools[1..], hotkeys, withheld);
    }
  }

  lemma GroupOfSomePool(pools: seq<seq<string>>, hotkeys: seq<string>, withheld: set<nat>, g: seq<int>)
    requires Distinct(hotkeys) && forall pool | pool in pools :: Distinct(pool)
    requires g in PoolUids(pools, hotkeys, withheld)
    ensures |g| > 1 && exists pool :: pool in pools && IsGroupOf(g, pool, hotkeys, withheld)
  {
    SameElements(LongGroups(pools, hotkeys, withheld), PoolUids(pools, hotkeys, withheld));
    GroupOrigin(pools, hotkeys, withheld, g);
    LongGroupsAreLong(pools, hotkeys, withheld);
    var p :| 0 <= p < |pools| && g == UidsOf(pools[p], hotkeys, withheld);
    assert pools[p] in pools;
    UidsAreGroup(pools[p], hotkeys, withheld);
  }

  lemma TwoMembers(g: seq<int>, u: int, v: int)
    requires u in g && v in g && u != v
    ensures |g| > 1
  {
  }

  lemma PoolHasGroup(pools: seq<seq<string>>, hotkeys: seq<string>, withheld: set<nat>, p: nat, u: nat, v: nat)
    requires Distinct(hotkeys) && p < |pools| && Distinct(pools[p])
    requires u < v < |hotkeys| && u !in withheld && v !in withheld
    requires hotkeys[u] in pools[p] && hotkeys[v] in pools[p]
    ensures exists g :: g in PoolUids(pools, hotkeys, withheld) && IsGroupOf(g, pools[p], hotkeys, withheld)
  {
    SameElements(LongGroups(pools, hotkeys, withheld), PoolUids(pools, hotkeys, withheld));
    var g := UidsOf(pools[p], hotkeys, withheld);
    UidsAreGroup(pools[p], hotkeys, withheld);
    TwoMembers(g, u, v);
    LongGroupKept(pools, hotkeys, withheld, p);
  }

  /** The UIDs a plan withholds: none without a recipient. */
  function WithheldBy(plan: Plan): set<nat> {
    if plan.recipient.Some? then plan.recipient.value.withheld else {}
  }

  lemma PlannedFromPools(a: Attempt, plan: Plan)
    requires PlanEmission(a) == Ok(plan) && (a.network.None? || plan.recipient.Some?)
    ensures plan.groups == PoolUids(a.pools, a.localHotkeys, WithheldBy(plan))
  {
    if plan.recipient.Some? {
      PlanIsRouted(a, plan);
    }
  }

  /** The groups handed to the encoder are the pools' UIDs that may earn, in each pool's order, wherever there are at
      least two of them, and nothing else. */
  lemma PlannedGroupsExactly(a: Attempt, plan: Plan)
    requires PlanEmission(a) == Ok(plan) && (a.network.None? || plan.recipient.Some?)
    requires Distinct(a.localHotkeys) && forall pool | pool in a.pools :: Distinct(pool)
    ensures forall g | g in plan.groups ::
      |g| > 1 && exists pool :: pool in a.pools && IsGroupOf(g, pool, a.localHotkeys, WithheldBy(plan))
    ensures forall p: nat, u: nat, v: nat |
        && p < |a.pools| && u < v < |a.localHotkeys| && u !in WithheldBy(plan) && v !in WithheldBy(plan)
        && a.localHotkeys[u] in a.pools[p] && a.localHotkeys[v] in a.pools[p] ::
      exists g :: g in plan.groups && IsGroupOf(g, a.pools[p], a.localHotkeys, WithheldBy(plan))
  {
    PlannedFromPools(a, plan);
    forall g | g in plan.groups
      ensures |g| > 1 && exists pool :: pool in a.pools && IsGroupOf(g, pool, a.localHotkeys, WithheldBy(plan))
    {
      GroupOfSomePool(a.pools, a.localHotkeys, WithheldBy(plan), g);
    }
    forall p: nat, u: nat, v: nat |
        && p < |a.pools| && u < v < |a.localHotkeys| && u !in WithheldBy(plan) && v !in WithheldBy(plan)
        && a.localHotkeys[u] in a.pools[p] && a.localHotkeys[v] in a.pools[p]
      ensures exists g :: g in plan.groups && IsGroupOf(g, a.pools[p], a.localHotkeys, WithheldBy(plan))
    {
      assert a.pools[p] in a.pools;
      PoolHasGroup(a.pools, a.localHotkeys, WithheldBy(plan), p, u, v);
    }
  }

  // -- the rechecks -----------------------------------------------------------

  /** `unit` is the rate's part of `total`, up to half a unit for every UID and for itself. */
  ghost predicate IsRateOf(unit: int, total: int, size: nat, burnBps: BurnRate) {
    var exact := burnBps as real * total as real / 10000.0;
    -((size + 1) as real / 2.0) <= unit as real - exact <= (size + 1) as real / 2.0
  }

  lemma ToleranceIsHalfUnits(unit: int, total: int, size: nat, burnBps: BurnRate)
    ensures ShareWithin(unit, total, size, burnBps) <==> IsRateOf(unit, total, size, burnBps)
  {
    assert (burnBps * total) as real == burnBps as real * total as real;
    var product := burnBps * total;
    assert ShareWithin(unit, total, size, burnBps)
      <==> -(10000 * (size + 1)) <= 2 * (10000 * unit - product) <= 10000 * (size + 1);
  }

  /** A vote the owner's rate can be read from: distinct local UIDs, units in range with the greatest among them, and
      the owner's unit at its rate of the whole. */
  ghost predicate PaysRate(r: Recipient, size: nat, us: seq<int>, ws: seq<int>) {
    && ws != [] && |us| == |ws| && Distinct(us) && U16_MAX in ws
    && (forall p | 0 <= p < |us| :: 0 <= us[p] < size && 0 < ws[p] <= U16_MAX)
    && (r.burnBps > 0 ==>
          exists p :: 0 <= p < |us| && us[p] == r.uid && IsRateOf(ws[p], Total(ws), size, r.burnBps))
    && forall p | 0 <= p < |us| && us[p] in r.withheld :: us[p] == r.uid && r.burnBps > 0
  }

  lemma OwnerUnit(r: Recipient, size: nat, us: seq<int>, ws: seq<int>, p: nat)
    requires |us| == |ws| && Distinct(us) && p < |us| && us[p] == r.uid && r.burnBps > 0
    requires SharePremises(r, size, us, ws)
    ensures BurnShareHolds(r, size, us, ws) <==> IsRateOf(ws[p], Total(ws), size, r.burnBps)
  {
    IndexOfDistinct(us, p);
    ToleranceIsHalfUnits(ws[p], Total(ws), size, r.burnBps);
  }

  lemma PartialVoteExactly(r: Recipient, size: nat, us: seq<int>, ws: seq<int>)
    requires r.burnBps < FULL_BURN_BPS
    ensures PaysRate(r, size, us, ws) <==>
      && BurnShareHolds(r, size, us, ws)
      && forall p | 0 <= p < |us| :: us[p] !in if r.burnBps == 0 then r.withheld else r.withheld - {r.uid}
  {
    if |us| == |ws| && Distinct(us) && r.burnBps > 0 && r.uid in us {
      var p := IndexOf(us, r.uid);
      forall q: nat | q < |us| && us[q] == r.uid ensures q == p {
        IndexOfDistinct(us, q);
      }
      if SharePremises(r, size, us, ws) {
        OwnerUnit(r, size, us, ws, p);
      }
    }
  }

  /** The recheck accepts a prepared vote exactly when the owner still resolves to its UID, chain minimum and limit are
      one, and the vote pays the owner its rate and no withheld UID, or under the whole vote the owner alone. */
  lemma RecheckAcceptsExactly(
    r: Recipient, chain: string, netuid: int, hotkeys: seq<string>, us: seq<int>, ws: seq<int>,
    minAllowed: Option<int>, limit: Option<real>)
    ensures RecheckOwnerVote(r, chain, netuid, hotkeys, us, ws, minAllowed, limit).None? <==>
      && ResolveOwnerUid(r.network, chain, netuid, hotkeys, r.hotkey) == Ok(r.uid)
      && minAllowed == Some(1) && limit == Some(1.0)
      && if r.burnBps == FULL_BURN_BPS then us == [r.uid as int] && ws == [U16_MAX] else PaysRate(r, |hotkeys|, us, ws)
  {
    if r.burnBps < FULL_BURN_BPS {
      PartialVoteExactly(r, |hotkeys|, us, ws);
    }
  }

  /** At the submission block `uid` has its prepared hotkey and its planned standing. */
  ghost predicate Stands(r: Recipient, state: OwnerState, prepared: seq<string>, uid: int)
    requires |state.coldkeys| == |state.hotkeys|
  {
    && 0 <= uid < |state.hotkeys| && uid < |prepared| && state.hotkeys[uid] == prepared[uid]
    && (uid in r.withheld <==> uid == r.uid || state.coldkeys[uid] == state.ownerColdkey)
  }

  lemma UidAccepted(r: Recipient, state: OwnerState, prepared: seq<string>, uid: int)
    requires |state.coldkeys| == |state.hotkeys|
    ensures RecheckUid(r, state, prepared, uid).None? <==> Stands(r, state, prepared, uid)
  {
  }

  /** The submission-block recheck accepts exactly the state of that block that has the planned owner, a coldkey per
      UID, and for the owner and every UID voted for its prepared hotkey and its planned standing. */
  lemma StateAcceptedExactly(r: Recipient, state: OwnerState, block: int, prepared: seq<string>, us: seq<int>)
    ensures RecheckOwnerState(r, Some(state), Some(block), prepared, us).None? <==>
      && state.block == block && state.ownerHotkey == r.hotkey && state.ownerColdkey == r.ownerColdkey
      && |state.coldkeys| == |state.hotkeys|
      && Stands(r, state, prepared, r.uid) && forall uid | uid in us :: Stands(r, state, prepared, uid)
  {
    if |state.coldkeys| == |state.hotkeys| {
      var named := us + [r.uid];
      forall uid | uid in named
        ensures RecheckUid(r, state, prepared, uid).None? <==> Stands(r, state, prepared, uid)
      {
        UidAccepted(r, state, prepared, uid);
      }
      assert r.uid in named && forall uid | uid in us :: uid in named;
    }
  }
}
