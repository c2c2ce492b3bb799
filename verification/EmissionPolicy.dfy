/** Planning one emission attempt from one chain snapshot, and rechecking the prepared vector.
    Earned weights, the owner burn and the owner vote on owner-vote networks. */
module EmissionPolicy {
  import opened Wrappers
  import opened BurnCommitment
  import opened Sums
  import opened Sorting
  import opened WeightProcessing
  import opened WeightRounding
  import opened ChainWeights

  const BURN_BPS_DENOMINATOR: nat := 10000
  const MAINNET_GENESIS_HASH := "0x2f0555cc76fc2840a25a6ea3b9637146806f1f44b090c175ffde2a7e5ab36c03"
  const SN30_NETUID := 30
  const SN30_OWNER_HOTKEY := "5HW12NvEZoGz8ZzcWMh4xyDUy6H1Af85m5LB8V1L11erK1S1"

  datatype Network = Mainnet | Testnet
  datatype Mode = Scored | OwnerVote

  datatype BlockReason =
    | OwnerVoteChainMismatch
    | OwnerHotkeyMismatch
    | OwnerUnregistered
    | OwnerSnapshotInconsistent
    | ChainSnapshotInconsistent
    | ValidatorIdentityInvalid
    | OwnerVoteVectorInvalid

  /** The chain facts one attempt is planned from; "" stands for an absent owner key. */
  datatype ChainSnapshot = ChainSnapshot(
    block: int, hotkeys: seq<string>, ownerHotkey: string, ownerColdkey: string, coldkeys: seq<string>,
    permits: seq<bool>, lastUpdates: seq<int>, rateLimit: int)

  /** One read of the owner's commitment, its record decoded to the text it holds. */
  datatype OwnerCommitment = OwnerCommitment(
    hotkey: string, block: int, recordBlock: Option<int>, text: Option<string>)

  datatype Recipient = Recipient(
    network: Network, hotkey: string, uid: nat, burnBps: BurnRate, ownerColdkey: string, withheld: set<nat>)

  datatype Attempt = Attempt(
    mode: Mode, network: Option<Network>, snapshot: Option<ChainSnapshot>, block: int, chain: string, netuid: int,
    validatorUid: int, validatorHotkey: string, localHotkeys: seq<string>, scores: seq<real>,
    commitment: Option<OwnerCommitment>, pools: seq<seq<string>>)

  datatype Plan = Plan(
    due: bool, permit: bool, nextEligibleBlock: int, weights: seq<real>, recipient: Option<Recipient>,
    burnBps: Option<BurnRate>, commitmentOwner: Option<string>, groups: seq<seq<int>>)

  // -- owner and identity ------------------------------------------------

  function ResolveOwnerUid(network: Network, chain: string, netuid: int, hotkeys: seq<string>, owner: string)
    : (r: Result<nat, BlockReason>)
    ensures r.Ok? ==> r.value < |hotkeys| && hotkeys[r.value] == owner != ""
  {
    if network.Mainnet? && (chain != MAINNET_GENESIS_HASH || netuid != SN30_NETUID) then Err(OwnerVoteChainMismatch)
    else if network.Mainnet? && owner != SN30_OWNER_HOTKEY then Err(OwnerHotkeyMismatch)
    else if network.Testnet? && chain == MAINNET_GENESIS_HASH then Err(OwnerVoteChainMismatch)
    else if owner == "" then Err(OwnerSnapshotInconsistent)
    else if owner !in hotkeys then Err(OwnerUnregistered)
    else if owner in hotkeys[IndexOf(hotkeys, owner) + 1..] then Err(OwnerSnapshotInconsistent)
    else Ok(IndexOf(hotkeys, owner))
  }

  function LocalOwnerUid(network: Network, chain: string, netuid: int, snapshot: ChainSnapshot,
                         localHotkeys: seq<string>)
    : (r: Result<nat, BlockReason>)
    ensures r.Ok? ==> r.value < |localHotkeys| && localHotkeys[r.value] == snapshot.ownerHotkey != ""
  {
    var uid :- ResolveOwnerUid(network, chain, netuid, snapshot.hotkeys, snapshot.ownerHotkey);
    if uid >= |localHotkeys| || localHotkeys[uid] != snapshot.ownerHotkey then Err(OwnerSnapshotInconsistent)
    else Ok(uid)
  }

  /** The UIDs whose incentive the chain withholds: the owner and every hotkey of its coldkey. */
  function ChainWithheldUids(snapshot: ChainSnapshot, ownerUid: nat): Result<set<nat>, BlockReason> {
    if snapshot.ownerColdkey == "" || |snapshot.coldkeys| != |snapshot.hotkeys| then Err(OwnerSnapshotInconsistent)
    else Ok((set uid: nat | uid < |snapshot.coldkeys| && snapshot.coldkeys[uid] == snapshot.ownerColdkey) + {ownerUid})
  }

  function ObservedBurnRate(commitment: Option<OwnerCommitment>, snapshot: ChainSnapshot): Result<BurnRate, BlockReason>
  {
    match commitment
    case None => Ok(FULL_BURN_BPS)
    case Some(c) =>
      if c.hotkey != snapshot.ownerHotkey || c.block != snapshot.block then Err(ChainSnapshotInconsistent)
      else if c.recordBlock.Some? && c.recordBlock.value > c.block then Err(ChainSnapshotInconsistent)
      else Ok(ParseBurnRate(c.text))
  }

  function SubmissionDue(uid: int, hotkey: string, snapshot: ChainSnapshot, block: int): Result<bool, BlockReason> {
    if uid < 0 || uid >= |snapshot.hotkeys| then Err(ValidatorIdentityInvalid)
    else if hotkey == "" || snapshot.hotkeys[uid] != hotkey then Err(ValidatorIdentityInvalid)
    else if uid >= |snapshot.permits| || uid >= |snapshot.lastUpdates| then Err(ChainSnapshotInconsistent)
    else
      var lastUpdate := snapshot.lastUpdates[uid];
      if block < 0 || snapshot.rateLimit < 0 || lastUpdate < 0 || lastUpdate > block then Err(ChainSnapshotInconsistent)
      else Ok(snapshot.permits[uid] && block - lastUpdate > snapshot.rateLimit)
  }

  // -- raw vectors -------------------------------------------------------

  /** The scores that may earn: withheld UIDs count as zero. */
  function Earned(scores: seq<real>, withheld: set<nat>): (r: seq<real>)
    ensures |r| == |scores| && forall k | 0 <= k < |r| :: r[k] == if k in withheld then 0.0 else scores[k]
  {
    seq(|scores|, k requires 0 <= k < |scores| => if k in withheld then 0.0 else scores[k])
  }

  function ScaleAll(s: seq<real>, k: real): (r: seq<real>)
    ensures |r| == |s| && forall i | 0 <= i < |r| :: r[i] == k * s[i]
  {
    seq(|s|, i requires 0 <= i < |s| => k * s[i])
  }

  /** The owner's `burnBps` and the miners' earned rest; None when no other UID earns. */
  function OwnerBurnWeights(scores: seq<real>, ownerUid: nat, burnBps: BurnRate): Result<Option<seq<real>>, BlockReason>
  {
    if ownerUid >= |scores| then Err(OwnerSnapshotInconsistent) else
      var earned := Clamped(scores)[ownerUid := 0.0];
      var total := Sum(earned);
      if total <= 0.0 then Ok(None) else
        var burn := burnBps as real / 10000.0;
        Ok(Some(DivideAll(ScaleAll(earned, 1.0 - burn), total)[ownerUid := burn]))
  }

  function OwnerVoteWeights(size: nat, ownerUid: nat): (r: Result<seq<real>, BlockReason>)
    ensures r.Ok? ==> |r.value| == size
  {
    if ownerUid >= size then Err(OwnerSnapshotInconsistent)
    else Ok(seq(size, uid => if uid == ownerUid then 1.0 else 0.0))
  }

  predicate AnyPositive(s: seq<real>) {
    exists k :: 0 <= k < |s| && s[k] > 0.0
  }

  function VoteNetworkWeights(earned: seq<real>, ownerUid: nat, size: nat, burnBps: BurnRate)
    : Result<(seq<real>, BurnRate), BlockReason>
  {
    if burnBps == 0 && AnyPositive(earned) then Ok((earned, 0)) else
      var burned :- if 0 < burnBps < FULL_BURN_BPS then OwnerBurnWeights(earned, ownerUid, burnBps) else Ok(None);
      if burned.Some? then Ok((burned.value, burnBps)) else
        var weights :- OwnerVoteWeights(size, ownerUid);
        Ok((weights, FULL_BURN_BPS))
  }

  // -- pools as UID groups -----------------------------------------------

  /** A pool's UIDs in the local metagraph, less those that never earn, in the pool's order. */
  function UidsOf(pool: seq<string>, hotkeys: seq<string>, withheld: set<nat>): (r: seq<int>)
    ensures forall u | u in r :: 0 <= u < |hotkeys| && hotkeys[u] in pool && u !in withheld
  {
    if pool == [] then [] else
      var rest := UidsOf(pool[1..], hotkeys, withheld);
      if pool[0] in hotkeys && IndexOf(hotkeys, pool[0]) !in withheld
      then [IndexOf(hotkeys, pool[0])] + rest else rest
  }

  predicate AscendingInt(a: int, b: int) {
    a <= b
  }

  /** Python's order on lists of ints. */
  predicate LexLe(a: seq<int>, b: seq<int>) {
    a == [] || (b != [] && (a[0] < b[0] || (a[0] == b[0] && LexLe(a[1..], b[1..]))))
  }

  predicate BySortedUids(a: seq<int>, b: seq<int>) {
    LexLe(Sort(a, AscendingInt), Sort(b, AscendingInt))
  }

  function LongGroups(pools: seq<seq<string>>, hotkeys: seq<string>, withheld: set<nat>): seq<seq<int>> {
    if pools == [] then [] else
      var group := UidsOf(pools[0], hotkeys, withheld);
      (if |group| > 1 then [group] else []) + LongGroups(pools[1..], hotkeys, withheld)
  }

  function PoolUids(pools: seq<seq<string>>, hotkeys: seq<string>, withheld: set<nat>): seq<seq<int>> {
    Sort(LongGroups(pools, hotkeys, withheld), BySortedUids)
  }

  // -- the plan ----------------------------------------------------------

  /** A score sits on a UID whose hotkey the snapshot and the local metagraph disagree about. */
  predicate ScoreOnMovedUid(a: Attempt, snapshot: ChainSnapshot) {
    exists uid :: 0 <= uid < |a.scores| && a.scores[uid] > 0.0
      && (uid >= |a.localHotkeys| || uid >= |snapshot.hotkeys| || a.localHotkeys[uid] != snapshot.hotkeys[uid])
  }

  /** Recipient and raw vector on an owner-vote network; the flag says a commitment must be read first. */
  function PlanRecipient(a: Attempt, snapshot: ChainSnapshot, network: Network)
    : Result<(Recipient, seq<real>, bool), BlockReason>
  {
    var ownerUid :- LocalOwnerUid(network, a.chain, a.netuid, snapshot, a.localHotkeys);
    if snapshot.ownerColdkey == "" then Err(OwnerSnapshotInconsistent) else
      var withheld :- if a.mode.Scored? then ChainWithheldUids(snapshot, ownerUid) else Ok({ownerUid});
      var earned := Earned(a.scores, withheld);
      var scored := a.mode.Scored? && AnyPositive(earned);
      var needsCommitment := scored && a.commitment.None?;
      var rate :- if scored && !needsCommitment then ObservedBurnRate(a.commitment, snapshot) else Ok(FULL_BURN_BPS);
      var (weights, burnBps) :- VoteNetworkWeights(earned, ownerUid, |a.localHotkeys|, rate);
      Ok((Recipient(network, a.localHotkeys[ownerUid], ownerUid, burnBps, snapshot.ownerColdkey, withheld),
          weights, needsCommitment))
  }

  function PlanEmission(a: Attempt): Result<Plan, BlockReason> {
    if a.snapshot.None? || a.snapshot.value.block != a.block then Err(ChainSnapshotInconsistent) else
      var snapshot := a.snapshot.value;
      if a.mode.Scored? && ScoreOnMovedUid(a, snapshot) then Err(ChainSnapshotInconsistent)
      else if a.mode.OwnerVote? && a.network.None? then Err(OwnerVoteChainMismatch)
      else
        var routed :- if a.network.None? then Ok(None)
                      else var r :- PlanRecipient(a, snapshot, a.network.value); Ok(Some(r));
        var due :- SubmissionDue(a.validatorUid, a.validatorHotkey, snapshot, a.block);
        var permit := snapshot.permits[a.validatorUid];
        var next := snapshot.lastUpdates[a.validatorUid] + snapshot.rateLimit + 1;
        if routed.Some? && routed.value.2 then
          Ok(Plan(due, permit, next, [], None, None, if due then Some(snapshot.ownerHotkey) else None, []))
        else
          var recipient := if routed.None? then None else Some(routed.value.0);
          var withheld := if routed.None? then {} else routed.value.0.withheld;
          Ok(Plan(due, permit, next,
                  if routed.None? then a.scores else routed.value.1,
                  recipient,
                  if routed.None? then None else Some(routed.value.0.burnBps),
                  None,
                  PoolUids(a.pools, a.localHotkeys, withheld)))
  }

  // -- the recheck -------------------------------------------------------

  function Abs(x: int): nat {
    if x < 0 then -x else x
  }

  predicate SharePremises(recipient: Recipient, size: nat, us: seq<int>, ws: seq<int>) {
    && ws != [] && |us| == |ws| && Distinct(us)
    && (recipient.burnBps > 0 ==> recipient.uid in us)
    && (forall p | 0 <= p < |us| :: 0 <= us[p] < size)
    && (forall p | 0 <= p < |ws| :: 0 < ws[p] <= U16_MAX)
    && U16_MAX in ws
  }

  /** The owner's u16 share equals the burn rate up to rounding: exact integer arithmetic. */
  predicate BurnShareHolds(recipient: Recipient, size: nat, us: seq<int>, ws: seq<int>) {
    && SharePremises(recipient, size, us, ws)
    && (recipient.burnBps > 0 ==>
          var deviation := Abs(BURN_BPS_DENOMINATOR * ws[IndexOf(us, recipient.uid)] - recipient.burnBps * Total(ws));
          2 * deviation <= BURN_BPS_DENOMINATOR * (size + 1))
  }

  /** None when the prepared vector may be sent, else the reason it is refused. */
  function RecheckOwnerVote(
    recipient: Recipient, chain: string, netuid: int, hotkeys: seq<string>, us: seq<int>, ws: seq<int>,
    minAllowed: Option<int>, limit: Option<real>): Option<BlockReason>
  {
    var resolved := ResolveOwnerUid(recipient.network, chain, netuid, hotkeys, recipient.hotkey);
    if resolved.Err? then Some(resolved.error)
    else if resolved.value != recipient.uid then Some(OwnerSnapshotInconsistent)
    else if minAllowed != Some(1) || limit != Some(1.0) then Some(OwnerVoteVectorInvalid)
    else if recipient.burnBps != FULL_BURN_BPS then
      if !BurnShareHolds(recipient, |hotkeys|, us, ws) then Some(OwnerVoteVectorInvalid)
      else
        var barred := if recipient.burnBps == 0 then recipient.withheld else recipient.withheld - {recipient.uid};
        if exists p | 0 <= p < |us| :: us[p] in barred then Some(OwnerVoteVectorInvalid) else None
    else if us != [recipient.uid] || ws != [U16_MAX] then Some(OwnerVoteVectorInvalid)
    else None
  }

  /** Owner facts re-read at the submission block. */
  datatype OwnerState = OwnerState(
    block: int, ownerHotkey: string, ownerColdkey: string, hotkeys: seq<string>, coldkeys: seq<string>)

  function RecheckUid(recipient: Recipient, state: OwnerState, preparedHotkeys: seq<string>, uid: int)
    : Option<BlockReason>
    requires |state.coldkeys| == |state.hotkeys|
  {
    if !(0 <= uid < |state.hotkeys|) || uid >= |preparedHotkeys| || state.hotkeys[uid] != preparedHotkeys[uid] then
      Some(ChainSnapshotInconsistent)
    else if (uid == recipient.uid || state.coldkeys[uid] == state.ownerColdkey) != (uid in recipient.withheld) then
      Some(OwnerSnapshotInconsistent)
    else None
  }

  function FirstRefusal(recipient: Recipient, state: OwnerState, preparedHotkeys: seq<string>, uids: seq<int>)
    : (r: Option<BlockReason>)
    requires |state.coldkeys| == |state.hotkeys|
    ensures r.None? <==> forall u | u in uids :: RecheckUid(recipient, state, preparedHotkeys, u).None?
  {
    if uids == [] then None else
      var first := RecheckUid(recipient, state, preparedHotkeys, uids[0]);
      if first.Some? then first else FirstRefusal(recipient, state, preparedHotkeys, uids[1..])
  }

  function RecheckOwnerState(
    recipient: Recipient, state: Option<OwnerState>, block: Option<int>, preparedHotkeys: seq<string>, us: seq<int>)
    : Option<BlockReason>
  {
    if state.None? || block != Some(state.value.block) then Some(ChainSnapshotInconsistent) else
      var s := state.value;
      if s.ownerHotkey != recipient.hotkey || s.ownerColdkey != recipient.ownerColdkey
      then Some(OwnerSnapshotInconsistent)
      else if |s.coldkeys| != |s.hotkeys| then Some(OwnerSnapshotInconsistent)
      else FirstRefusal(recipient, s, preparedHotkeys, us + [recipient.uid])
  }
}
