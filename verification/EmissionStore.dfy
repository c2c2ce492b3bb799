/** The durable record of weight emissions: one row a batch, moved only by transactions. */
module EmissionStore {
  import opened Wrappers

  type Hotkey = string

  const CURRENT_VERSION_KEY := 2044
  const CR4_REVEAL_SCAN_BATCH_BLOCKS := 32

  datatype State = NoState | Prepared | Submitted | Ambiguous | Confirmed | Unconfirmed | Failed
  datatype Status = SubmittedStatus | FailedStatus | ErrorStatus
  datatype Mode = Direct | Cr4
  datatype Error = InvalidValue | ConstraintViolated | NotTransitionable

  /** The hash of a weight intent, as a digest that only its own payload has. */
  datatype Payload = Payload(chain: string, netuid: int, uid: int, hotkey: Hotkey, targets: map<int, (Hotkey, int)>)
  datatype Digest = OfLegacy(payload: Payload) | OfVersioned(key: int, payload: Payload) | OfSomethingElse(id: nat)
  datatype Intent = LegacyHash(digest: Digest) | VersionedHash(version: int, digest: Digest) | Malformed

  datatype Target = Target(hotkey: Hotkey, weight: Option<int>)
  datatype Evidence = Evidence(chain: Option<string>, netuid: Option<int>, uid: Option<int>, hotkey: Option<Hotkey>)

  datatype Batch = Batch(
    schema: string, status: Status, state: State, confirmedAt: Option<string>, emitted: bool,
    submission: Option<int>, baseline: Option<int>, period: Option<int>,
    deadline: Option<int>, revealDeadline: Option<int>, cursor: Option<int>,
    evidence: Evidence, mode: Option<Mode>, intent: Option<Intent>,
    commitmentHash: Option<string>, revealRound: Option<int>,
    observedBlock: Option<int>, observedLastUpdate: Option<int>,
    rows: map<int, Target>)

  datatype Ledger = Ledger(batches: map<nat, Batch>, next: nat)

  datatype NewRow = NewRow(uid: int, hotkey: Hotkey, weight: Option<int>, marked: bool)

  /** The arguments of one recording. */
  datatype NewEmission = NewEmission(
    schema: string, status: Status, state: State, confirmedAt: Option<string>,
    submission: Option<int>, baseline: Option<int>, period: Option<int>,
    deadline: Option<int>, revealDeadline: Option<int>,
    evidence: Evidence, mode: Option<Mode>, intent: Option<Intent>, protocolKey: Option<int>,
    commitmentHash: Option<string>, revealRound: Option<int>, observedBlock: Option<int>,
    rows: seq<NewRow>)

  datatype Outcome = Outcome(status: Status, state: State, mode: Mode, commitmentHash: Option<string>,
                             revealRound: Option<int>, deadline: Option<int>, revealDeadline: Option<int>)

  datatype Commit = Commit(hotkey: Hotkey, block: int, hash: string, round: nat)
  datatype Reveal = Reveal(hotkey: Hotkey, netuid: int, block: int)
  datatype Snapshot = Snapshot(
    chain: string, netuid: int, uid: int, hotkey: Hotkey, block: int, lastUpdate: int,
    weights: seq<(int, int)>, commitments: seq<Commit>, revealEvents: seq<Reveal>, hotkeys: seq<(int, Hotkey)>,
    scanComplete: bool)

  datatype Decision = Keep | Confirm | Unconfirm
    | Observe(block: int, lastUpdate: int, hash: Option<string>, round: Option<int>)

  datatype Resolution = Resolution(confirmed: nat, unconfirmed: nat)
  datatype Window = Window(batch: nat, start: int, end: int, complete: bool)

  predicate Open(s: State) {
    s == Prepared || s == Submitted || s == Ambiguous
  }

  function MaxOf(a: int, b: int): int {
    if a >= b then a else b
  }

  predicate AtLeast(v: Option<int>, least: int) {
    v.Some? ==> v.value >= least
  }

  predicate EvidenceSet(e: Evidence, mode: Option<Mode>, intent: Option<Intent>) {
    e.chain.Some? && e.netuid.Some? && e.uid.Some? && e.hotkey.Some? && mode.Some? && intent.Some?
  }

  predicate DeadlineBounded(deadline: Option<int>, submission: Option<int>, period: Option<int>) {
    deadline.Some? && submission.Some? && period.Some? ==>
      submission.value + period.value <= deadline.value <= submission.value + 2 * period.value
  }

  predicate StatusFits(state: State, status: Status) {
    && (state == Prepared || state == Ambiguous ==> status == ErrorStatus)
    && (state == Submitted ==> status == SubmittedStatus)
    && (state == Failed ==> status == FailedStatus || status == ErrorStatus)
  }

  predicate CommitmentFits(hash: Option<string>, round: Option<int>, mode: Option<Mode>) {
    && (hash.None? <==> round.None?)
    && (hash.Some? ==> mode == Some(Cr4))
  }

  /** The table's CHECK constraints. */
  predicate Constraints(b: Batch) {
    && AtLeast(b.submission, 0) && AtLeast(b.baseline, 0) && AtLeast(b.period, 1) && AtLeast(b.deadline, 0)
    && AtLeast(b.evidence.netuid, 0) && AtLeast(b.evidence.uid, 0) && AtLeast(b.revealRound, 0)
    && AtLeast(b.observedBlock, 0) && AtLeast(b.observedLastUpdate, 0)
    && (Open(b.state) ==> b.deadline.Some?)
    && (Open(b.state) || b.state == Confirmed || b.state == Unconfirmed ==>
          b.submission.Some? && b.baseline.Some? && b.period.Some? && EvidenceSet(b.evidence, b.mode, b.intent))
    && CommitmentFits(b.commitmentHash, b.revealRound, b.mode)
    && DeadlineBounded(b.deadline, b.submission, b.period)
    && (b.submission.Some? && b.baseline.Some? ==> b.submission.value >= b.baseline.value)
    && StatusFits(b.state, b.status)
    && (b.state == Confirmed <==> b.confirmedAt.Some?)
  }

  ghost predicate Clash(l: Ledger, i: nat, j: nat) {
    && i in l.batches && j in l.batches && Open(l.batches[i].state) && Open(l.batches[j].state)
    && l.batches[i].schema == l.batches[j].schema
  }

  /** The unique index: one open batch a schema. */
  ghost predicate OneOpen(l: Ledger) {
    forall i, j {:trigger Clash(l, i, j)} :: Clash(l, i, j) ==> i == j
  }

  ghost predicate RowFits(l: Ledger, id: nat) {
    id in l.batches ==>
      id < l.next && Constraints(l.batches[id]) && (l.batches[id].emitted ==> l.batches[id].state == Confirmed)
  }

  /** What every transaction keeps. */
  ghost predicate Inv(l: Ledger) {
    (forall id {:trigger RowFits(l, id)} :: RowFits(l, id)) && OneOpen(l)
  }

  predicate HasOpen(l: Ledger, schema: string) {
    exists id | id in l.batches :: Open(l.batches[id].state) && l.batches[id].schema == schema
  }

  // -- recording ---------------------------------------------------------------

  function RecordedVersion(intent: Intent): Option<int>
    requires !intent.Malformed?
  {
    if intent.LegacyHash? then None else Some(intent.version)
  }

  function IntentHash(key: Option<int>, p: Payload): Intent {
    if key.None? then LegacyHash(OfLegacy(p)) else VersionedHash(key.value, OfVersioned(key.value, p))
  }

  function RowsOf(rows: seq<NewRow>): (r: map<int, Target>)
    ensures forall u :: u in r <==> exists i :: 0 <= i < |rows| && rows[i].uid == u
  {
    if rows == [] then map[] else
      var last := rows[|rows| - 1];
      RowsOf(rows[..|rows| - 1])[last.uid := Target(last.hotkey, last.weight)]
  }

  function TargetsOf(rows: map<int, Target>): map<int, (Hotkey, int)> {
    map u | u in rows && rows[u].weight.Some? :: (rows[u].hotkey, rows[u].weight.value)
  }

  function PayloadOf(e: Evidence, rows: map<int, Target>): Payload
    requires e.chain.Some? && e.netuid.Some? && e.uid.Some? && e.hotkey.Some?
  {
    Payload(e.chain.value, e.netuid.value, e.uid.value, e.hotkey.value, TargetsOf(rows))
  }

  predicate DistinctUids(rows: seq<NewRow>) {
    forall i, j | 0 <= i < j < |rows| :: rows[i].uid != rows[j].uid
  }

  predicate NumbersValid(a: NewEmission) {
    && AtLeast(a.submission, 0) && AtLeast(a.baseline, 0) && AtLeast(a.deadline, 0) && AtLeast(a.revealDeadline, 0)
    && AtLeast(a.evidence.netuid, 0) && AtLeast(a.evidence.uid, 0) && AtLeast(a.revealRound, 0)
    && AtLeast(a.observedBlock, 0) && AtLeast(a.period, 1)
    && (a.submission.Some? && a.baseline.Some? ==> a.submission.value >= a.baseline.value)
    && DeadlineBounded(a.deadline, a.submission, a.period)
    && (a.revealDeadline.Some? && a.deadline.Some? ==> a.revealDeadline.value >= a.deadline.value)
  }

  predicate IntentValid(a: NewEmission) {
    EvidenceSet(a.evidence, a.mode, a.intent) ==>
      && !a.intent.value.Malformed?
      && (var version := RecordedVersion(a.intent.value);
          && (version.Some? ==> version.value == CURRENT_VERSION_KEY && a.protocolKey == Some(CURRENT_VERSION_KEY))
          && (version.None? ==> !Open(a.state) && a.protocolKey.None?)
          && a.intent.value == IntentHash(version, PayloadOf(a.evidence, RowsOf(a.rows))))
  }

  predicate EmissionValid(a: NewEmission) {
    && (a.revealDeadline.Some? ==> a.mode == Some(Cr4))
    && a.state != Confirmed && a.confirmedAt.None? && StatusFits(a.state, a.status)
    && NumbersValid(a)
    && (Open(a.state) ==> a.submission.Some? && a.baseline.Some? && a.period.Some? && a.deadline.Some?
                          && EvidenceSet(a.evidence, a.mode, a.intent))
    && CommitmentFits(a.commitmentHash, a.revealRound, a.mode)
    && (forall i | 0 <= i < |a.rows| :: !a.rows[i].marked)
    && IntentValid(a)
  }

  function BatchOf(a: NewEmission): Batch {
    Batch(a.schema, a.status, a.state, a.confirmedAt, false, a.submission, a.baseline, a.period, a.deadline,
          a.revealDeadline, None, a.evidence, a.mode, a.intent, a.commitmentHash, a.revealRound, a.observedBlock, None,
          RowsOf(a.rows))
  }

  function RecordCheck(l: Ledger, a: NewEmission): Option<Error> {
    if !EmissionValid(a) then Some(InvalidValue)
    else if !Constraints(BatchOf(a)) || !DistinctUids(a.rows) || (Open(a.state) && HasOpen(l, a.schema))
    then Some(ConstraintViolated)
    else None
  }

  function Record(l: Ledger, a: NewEmission): Ledger {
    if RecordCheck(l, a).Some? then l else Ledger(l.batches[l.next := BatchOf(a)], l.next + 1)
  }

  // -- the outcome of the one submission ----------------------------------------

  predicate OutcomeValid(t: Outcome) {
    && (t.state == Submitted || t.state == Ambiguous || t.state == Failed)
    && StatusFits(t.state, t.status)
    && CommitmentFits(t.commitmentHash, t.revealRound, Some(t.mode))
    && (t.revealDeadline.Some? ==> t.mode == Cr4)
  }

  /** SQLite's max over a column that may be null and a new value that may be absent. */
  function Later(stored: Option<int>, given: Option<int>): Option<int> {
    if given.None? then stored else if stored.None? then given else Some(MaxOf(stored.value, given.value))
  }

  function Transitioned(b: Batch, t: Outcome): Batch {
    b.(status := t.status, state := t.state, mode := Some(t.mode), commitmentHash := t.commitmentHash,
       revealRound := t.revealRound, deadline := Later(b.deadline, t.deadline),
       revealDeadline := Later(b.revealDeadline, t.revealDeadline))
  }

  function TransitionCheck(l: Ledger, id: nat, t: Outcome): Option<Error> {
    if !OutcomeValid(t) then Some(InvalidValue)
    else if id !in l.batches || l.batches[id].state != Prepared then Some(NotTransitionable)
    else if !Constraints(Transitioned(l.batches[id], t)) then Some(ConstraintViolated)
    else None
  }

  function Transition(l: Ledger, id: nat, t: Outcome): Ledger {
    if TransitionCheck(l, id, t).Some? then l
    else l.(batches := l.batches[id := Transitioned(l.batches[id], t)])
  }

  // -- resolution by one finalized snapshot ----------------------------------------

  predicate DistinctKeys<T>(pairs: seq<(int, T)>) {
    forall i, j | 0 <= i < j < |pairs| :: pairs[i].0 != pairs[j].0
  }

  predicate SnapshotValid(s: Snapshot) {
    && s.block >= 0 && 0 <= s.lastUpdate <= s.block
    && (forall i | 0 <= i < |s.commitments| :: s.commitments[i].block <= s.block)
    && (forall i | 0 <= i < |s.revealEvents| :: s.revealEvents[i].block <= s.block)
    && DistinctKeys(s.hotkeys) && DistinctKeys(s.weights)
  }

  function AsMap<T>(pairs: seq<(int, T)>): map<int, T> {
    if pairs == [] then map[] else AsMap(pairs[..|pairs| - 1])[pairs[|pairs| - 1].0 := pairs[|pairs| - 1].1]
  }

  predicate IdentityMatches(b: Batch, s: Snapshot) {
    b.evidence == Evidence(Some(s.chain), Some(s.netuid), Some(s.uid), Some(s.hotkey))
  }

  predicate VectorMatches(b: Batch, s: Snapshot) {
    var targets, hotkeys := TargetsOf(b.rows), AsMap(s.hotkeys);
    && (map u | u in targets :: targets[u].1) == AsMap(s.weights)
    && forall u | u in targets :: u in hotkeys && hotkeys[u] == targets[u].0
  }

  predicate IntentMatches(b: Batch, s: Snapshot)
    requires b.intent.Some?
  {
    var intent := b.intent.value;
    && !intent.Malformed?
    && (RecordedVersion(intent).None? || RecordedVersion(intent) == Some(CURRENT_VERSION_KEY))
    && intent == IntentHash(RecordedVersion(intent), Payload(s.chain, s.netuid, s.uid, s.hotkey, TargetsOf(b.rows)))
  }

  function DirectResolution(b: Batch, s: Snapshot, margin: int, matches: bool): Decision
    requires b.submission.Some? && b.baseline.Some?
  {
    if b.deadline.Some? && s.lastUpdate > MaxOf(b.submission.value, b.baseline.value)
       && s.lastUpdate <= b.deadline.value - margin && matches then Confirm
    else if b.deadline.Some? && s.block > b.deadline.value then Unconfirm
    else Keep
  }

  /** A commitment on chain that may be this batch's. */
  predicate IsCandidate(b: Batch, s: Snapshot, margin: int, c: Commit)
    requires b.submission.Some? && b.period.Some?
  {
    var inclusion := if b.deadline.Some? then b.deadline.value - margin else b.submission.value + b.period.value;
    && c.hotkey == s.hotkey && b.submission.value <= c.block <= inclusion
    && ((b.commitmentHash.None? && b.revealRound.None?)
        || (b.commitmentHash == Some(c.hash) && b.revealRound == Some(c.round)))
  }

  function CandidatesIn(b: Batch, s: Snapshot, margin: int, commits: seq<Commit>): (r: seq<Commit>)
    requires b.submission.Some? && b.period.Some?
    ensures forall c :: c in r <==> c in commits && IsCandidate(b, s, margin, c)
  {
    if commits == [] then [] else
      (if IsCandidate(b, s, margin, commits[0]) then [commits[0]] else []) + CandidatesIn(b, s, margin, commits[1..])
  }

  function Candidates(b: Batch, s: Snapshot, margin: int): seq<Commit>
    requires b.submission.Some? && b.period.Some?
  {
    CandidatesIn(b, s, margin, s.commitments)
  }

  /** A reveal of this validator on this subnet, from where the commitment was seen (or else the submission) to
      the reveal deadline. */
  predicate RevealCounts(b: Batch, s: Snapshot, r: Reveal)
    requires b.submission.Some?
  {
    && r.hotkey == s.hotkey && r.netuid == s.netuid
    && (if b.observedBlock.Some? then b.observedBlock.value else b.submission.value) <= r.block
    && (b.revealDeadline.Some? ==> r.block <= b.revealDeadline.value)
  }

  predicate RevealSeen(b: Batch, s: Snapshot)
    requires b.submission.Some?
  {
    exists i | 0 <= i < |s.revealEvents| :: RevealCounts(b, s, s.revealEvents[i])
  }

  function Expiry(b: Batch): Option<int> {
    if b.revealDeadline.Some? then b.revealDeadline else b.deadline
  }

  function Cr4Resolution(b: Batch, s: Snapshot, margin: int, matches: bool): Decision
    requires b.submission.Some? && b.period.Some?
  {
    var candidates := Candidates(b, s, margin);
    if |candidates| > 1 then
      if b.deadline.Some? && s.block > b.deadline.value then Unconfirm else Keep
    else if RevealSeen(b, s) && matches then Confirm
    else if |candidates| == 1 && b.observedBlock.None? then
      Observe(candidates[0].block, s.lastUpdate, if b.commitmentHash.None? then Some(candidates[0].hash) else None,
              if b.revealRound.None? then Some(candidates[0].round) else None)
    else
      var expired := s.scanComplete && Expiry(b).Some? && s.block > Expiry(b).value;
      if b.observedBlock.Some? && b.observedLastUpdate.Some? then
        if expired && |candidates| == 0 then Unconfirm else Keep
      else if expired then Unconfirm else Keep
  }

  function Decide(b: Batch, s: Snapshot, margin: int): Decision
    requires Constraints(b) && Open(b.state)
  {
    if !IdentityMatches(b, s) then
      if s.block > MaxOf(b.deadline.value, if b.revealDeadline.Some? then b.revealDeadline.value else b.deadline.value)
      then Unconfirm else Keep
    else if s.block < MaxOf(b.submission.value, b.baseline.value) then Keep
    else
      var matches := VectorMatches(b, s) && IntentMatches(b, s);
      if b.mode == Some(Direct) then DirectResolution(b, s, margin, matches) else Cr4Resolution(b, s, margin, matches)
  }

  function Apply(b: Batch, d: Decision, at: string): Batch {
    match d
    case Keep => b
    case Confirm => b.(state := Confirmed, confirmedAt := Some(at), emitted := true)
    case Unconfirm => b.(state := Unconfirmed)
    case Observe(block, lastUpdate, hash, round) =>
      b.(observedBlock := Some(block), observedLastUpdate := Some(lastUpdate),
         commitmentHash := if hash.Some? then hash else b.commitmentHash,
         revealRound := if round.Some? then round else b.revealRound)
  }

  predicate Due(b: Batch, schema: string) {
    b.schema == schema && Open(b.state)
  }

  function ResolveOne(b: Batch, schema: string, s: Snapshot, margin: int, at: string): Batch
    requires Constraints(b)
  {
    if Due(b, schema) then Apply(b, Decide(b, s, margin), at) else b
  }

  function ResolveCheck(s: Snapshot, margin: int): Option<Error> {
    if margin < 0 || !SnapshotValid(s) then Some(InvalidValue) else None
  }

  ghost function Resolve(l: Ledger, schema: string, s: Snapshot, margin: int, at: string): Ledger
    requires Inv(l)
  {
    if ResolveCheck(s, margin).Some? then l
    else l.(batches :=
      map id | id in l.batches :: assert RowFits(l, id); ResolveOne(l.batches[id], schema, s, margin, at))
  }

  // -- the scan cursor --------------------------------------------------------------

  predicate Scannable(b: Batch, schema: string) {
    Due(b, schema) && b.mode == Some(Cr4) && b.revealDeadline.Some?
  }

  function MinOf(a: int, b: int): int {
    if a <= b then a else b
  }

  /** The first block not yet scanned. */
  function ScanStart(b: Batch): int
    requires b.submission.Some?
  {
    MaxOf(b.submission.value, if b.cursor.Some? then b.cursor.value + 1 else b.submission.value)
  }

  function WindowOf(id: nat, b: Batch, finalized: int): Option<Window>
    requires b.submission.Some? && b.revealDeadline.Some?
  {
    var start := ScanStart(b);
    var end := MinOf(MinOf(finalized, b.revealDeadline.value), start + CR4_REVEAL_SCAN_BATCH_BLOCKS - 1);
    if start > end then None else Some(Window(id, start, end, end >= b.revealDeadline.value))
  }

  function Advance(l: Ledger, id: nat, through: int): Ledger {
    if id in l.batches && Open(l.batches[id].state)
    then l.(batches := l.batches[id := l.batches[id].(cursor := Later(l.batches[id].cursor, Some(through)))])
    else l
  }

  // -- runs --------------------------------------------------------------------------

  datatype Event =
    | RecordEvent(emission: NewEmission)
    | TransitionEvent(id: nat, outcome: Outcome)
    | ResolveEvent(schema: string, snapshot: Snapshot, margin: int, at: string)
    | AdvanceEvent(id: nat, through: int)

  ghost function Step(l: Ledger, e: Event): Ledger
    requires Inv(l)
  {
    match e
    case RecordEvent(a) => Record(l, a)
    case TransitionEvent(id, t) => Transition(l, id, t)
    case ResolveEvent(schema, s, margin, at) => Resolve(l, schema, s, margin, at)
    case AdvanceEvent(id, through) => Advance(l, id, through)
  }

  lemma RecordKeepsInv(l: Ledger, a: NewEmission)
    requires Inv(l)
    ensures Inv(Record(l, a))
  {
    var r := Record(l, a);
    forall id ensures RowFits(r, id) {
      assert RowFits(l, id);
    }
    forall i, j | Clash(r, i, j) ensures i == j {
      assert RowFits(l, i) && RowFits(l, j);
      assert Clash(l, i, j) ==> i == j;
    }
  }

  lemma TransitionKeepsInv(l: Ledger, id: nat, t: Outcome)
    requires Inv(l)
    ensures Inv(Transition(l, id, t))
  {
    var r := Transition(l, id, t);
    forall k ensures RowFits(r, k) {
      assert RowFits(l, k);
    }
    forall i, j | Clash(r, i, j) ensures i == j {
      assert Clash(l, i, j);
    }
  }

  lemma AdvanceKeepsInv(l: Ledger, id: nat, through: int)
    requires Inv(l)
    ensures Inv(Advance(l, id, through))
  {
    var r := Advance(l, id, through);
    forall k ensures RowFits(r, k) {
      assert RowFits(l, k);
    }
    forall i, j | Clash(r, i, j) ensures i == j {
      assert Clash(l, i, j);
    }
  }

  lemma ObserveFits(b: Batch, s: Snapshot, margin: int, at: string)
    requires Constraints(b) && Open(b.state) && SnapshotValid(s) && Decide(b, s, margin).Observe?
    ensures Constraints(Apply(b, Decide(b, s, margin), at))
  {
    assert Candidates(b, s, margin)[0] in Candidates(b, s, margin);
    assert b.mode.value == Cr4;
  }

  lemma ClosingFits(b: Batch, s: Snapshot, margin: int, at: string)
    requires Constraints(b) && Open(b.state) && !b.emitted && !Decide(b, s, margin).Observe?
    ensures var r := Apply(b, Decide(b, s, margin), at);
      Constraints(r) && (r.emitted ==> r.state == Confirmed) && (Open(r.state) ==> r.state == b.state)
  {
    match Decide(b, s, margin)
    case Keep =>
    case Confirm =>
    case Unconfirm =>
  }

  /** A decision never breaks a constraint, never reopens, and never leaves a batch marked emitted but not confirmed. */
  lemma ResolveOneFits(b: Batch, schema: string, s: Snapshot, margin: int, at: string)
    requires Constraints(b) && ResolveCheck(s, margin).None? && (b.emitted ==> b.state == Confirmed)
    ensures var r := ResolveOne(b, schema, s, margin, at);
      && Constraints(r) && (r.emitted ==> r.state == Confirmed)
      && (Open(r.state) ==> r.state == b.state) && r.schema == b.schema
  {
    if Due(b, schema) {
      if Decide(b, s, margin).Observe? {
        ObserveFits(b, s, margin, at);
      } else {
        ClosingFits(b, s, margin, at);
      }
    }
  }

  lemma ResolveKeepsInv(l: Ledger, schema: string, s: Snapshot, margin: int, at: string)
    requires Inv(l)
    ensures Inv(Resolve(l, schema, s, margin, at))
  {
    var r := Resolve(l, schema, s, margin, at);
    if ResolveCheck(s, margin).None? {
      forall id ensures RowFits(r, id) {
        ResolvedRowFits(l, id, schema, s, margin, at);
      }
      forall i, j | Clash(r, i, j) ensures i == j {
        ResolvedRowFits(l, i, schema, s, margin, at);
        ResolvedRowFits(l, j, schema, s, margin, at);
        assert Clash(l, i, j);
      }
    }
  }

  lemma ResolvedRowFits(l: Ledger, id: nat, schema: string, s: Snapshot, margin: int, at: string)
    requires Inv(l) && ResolveCheck(s, margin).None?
    ensures var r := Resolve(l, schema, s, margin, at);
      && RowFits(r, id)
      && (id in r.batches && Open(r.batches[id].state) ==> Open(l.batches[id].state))
      && (id in r.batches ==> r.batches[id].schema == l.batches[id].schema)
  {
    assert RowFits(l, id);
    if id in l.batches {
      ResolveOneFits(l.batches[id], schema, s, margin, at);
    }
  }

  lemma StepKeepsInv(l: Ledger, e: Event)
    requires Inv(l)
    ensures Inv(Step(l, e))
  {
    match e
    case RecordEvent(a) => RecordKeepsInv(l, a);
    case TransitionEvent(id, t) => TransitionKeepsInv(l, id, t);
    case ResolveEvent(schema, s, margin, at) => ResolveKeepsInv(l, schema, s, margin, at);
    case AdvanceEvent(id, through) => AdvanceKeepsInv(l, id, through);
  }

  const EMPTY := Ledger(map[], 0)

  /** The ledger after any run of storage transactions; a run that fails leaves it as it was. */
  ghost function Run(l: Ledger, events: seq<Event>): (r: Ledger)
    requires Inv(l)
    ensures Inv(r)
    decreases |events|
  {
    if events == [] then l else
      var before := Run(l, events[..|events| - 1]);
      StepKeepsInv(before, events[|events| - 1]);
      Step(before, events[|events| - 1])
  }
}
