/** How the validator drives the store: one durable attempt at a time, then a bounded scan for its reveal. */
module EmissionDriver {
  import opened Wrappers
  import opened EmissionStore
  import opened EmissionTransactions
  import S = Cr4Schedule

  const PERIOD_BLOCKS := 128
  const FINALITY_MARGIN_BLOCKS := 12

  // -- deadlines --------------------------------------------------------------------

  function PreparedDeadline(submission: int): int {
    submission + PERIOD_BLOCKS + FINALITY_MARGIN_BLOCKS
  }

  /** The deadline after the submission; `sampled` is the head read after it, if it could be read. */
  function PostDeadline(fallback: Option<int>, sampled: Option<int>): Option<int> {
    if sampled.None? then fallback else
      var deadline := sampled.value + PERIOD_BLOCKS + FINALITY_MARGIN_BLOCKS;
      if fallback.None? then Some(deadline)
      else Some(MaxOf(fallback.value, MinOf(deadline, fallback.value + PERIOD_BLOCKS - FINALITY_MARGIN_BLOCKS)))
  }

  function PostRevealDeadline(mode: Mode, prior: Option<int>, sampled: Option<int>, refreshed: Option<int>): Option<int>
  {
    if sampled.None? || mode != Cr4 || refreshed.None? then prior
    else if prior.None? || prior.value == 0 then refreshed
    else Some(MaxOf(prior.value, refreshed.value))
  }

  /** Before and after the submission, whatever head is read, the deadline is at least one period and at most two
      after the submission block, and never earlier than the one prepared. */
  lemma DeadlinesStayInWindow(submission: int, sampled: Option<int>)
    ensures var d := PostDeadline(Some(PreparedDeadline(submission)), sampled);
      && d.Some? && PreparedDeadline(submission) <= d.value
      && submission + PERIOD_BLOCKS <= d.value <= submission + 2 * PERIOD_BLOCKS
  {
  }

  // -- one emission -------------------------------------------------------------------

  /** What the validator read before preparing: the encoded vector's targets and the chain facts. */
  datatype Intended = Intended(schema: string, chain: string, netuid: nat, uid: nat, hotkey: Hotkey, baseline: nat,
                               submission: nat, mode: Mode, revealDeadline: Option<int>, rows: seq<NewRow>)

  datatype Reply = ProviderThrottled | LocallyRateLimited | RestartRequired | Stalled | OtherError | Refused
    | Accepted(commitment: Option<(string, nat)>)

  function AttemptOf(i: Intended): NewEmission {
    var e := Evidence(Some(i.chain), Some(i.netuid), Some(i.uid), Some(i.hotkey));
    NewEmission(i.schema, ErrorStatus, Prepared, None, Some(i.submission), Some(i.baseline), Some(PERIOD_BLOCKS),
                Some(PreparedDeadline(i.submission)), i.revealDeadline, e, Some(i.mode),
                Some(IntentHash(Some(CURRENT_VERSION_KEY), PayloadOf(e, RowsOf(i.rows)))), Some(CURRENT_VERSION_KEY),
                None, None, None, i.rows)
  }

  /** The outcome stored for the SDK's reply; none when the process must restart, and the batch stays prepared. */
  function OutcomeOf(i: Intended, reply: Reply, sampled: Option<int>, refreshed: Option<int>): Option<Outcome> {
    var deadline := PostDeadline(Some(PreparedDeadline(i.submission)), sampled);
    var revealDeadline := PostRevealDeadline(i.mode, i.revealDeadline, sampled, refreshed);
    var ambiguous := Outcome(ErrorStatus, Ambiguous, i.mode, None, None, deadline, revealDeadline);
    match reply
    case RestartRequired => None
    case LocallyRateLimited => Some(Outcome(FailedStatus, Failed, i.mode, None, None, None, i.revealDeadline))
    case Refused => Some(Outcome(FailedStatus, Failed, i.mode, None, None, None, None))
    case ProviderThrottled => Some(ambiguous)
    case Stalled => Some(ambiguous)
    case OtherError => Some(ambiguous)
    case Accepted(commitment) =>
      if i.mode == Cr4 && commitment.None? then Some(ambiguous)
      else if commitment.Some? then
        Some(Outcome(SubmittedStatus, Submitted, Cr4, Some(commitment.value.0), Some(commitment.value.1), deadline,
                     revealDeadline))
      else Some(Outcome(SubmittedStatus, Submitted, Direct, None, None, deadline, revealDeadline))
  }

  /** The chain facts as read: the head is not behind the last update, a direct attempt has no reveal deadline, and
      a timelocked one has the schedule's, on a subnet whose tempo is a full mortality period or more. */
  ghost predicate FactsRead(i: Intended) {
    && i.submission >= i.baseline
    && DistinctUids(i.rows) && (forall k | 0 <= k < |i.rows| :: !i.rows[k].marked)
    && (i.mode == Direct ==> i.revealDeadline.None?)
    && (i.mode == Cr4 ==> exists schedule, period :: ScheduledDeadline(i, schedule, period))
  }

  ghost predicate ScheduledDeadline(i: Intended, schedule: S.Schedule, period: int) {
    && schedule.currentBlock == i.submission && schedule.tempo >= PERIOD_BLOCKS && period >= 1
    && i.revealDeadline.Some?
    && S.Deadline(schedule, period, FINALITY_MARGIN_BLOCKS) == Ok(i.revealDeadline.value)
  }

  lemma AtLeastOnce(n: int, gap: int)
    requires n >= 1 && gap >= 0
    ensures n * gap >= gap
  {
  }

  lemma RevealDeadlineInOrder(i: Intended)
    requires FactsRead(i) && i.mode == Cr4
    ensures i.revealDeadline.Some? && i.revealDeadline.value > PreparedDeadline(i.submission)
  {
    var schedule, period :| ScheduledDeadline(i, schedule, period);
    S.DeadlineNotBefore(schedule, period, FINALITY_MARGIN_BLOCKS, PERIOD_BLOCKS);
    AtLeastOnce(period, PERIOD_BLOCKS);
  }

  lemma AttemptValid(i: Intended)
    requires FactsRead(i)
    ensures EmissionValid(AttemptOf(i)) && Constraints(BatchOf(AttemptOf(i)))
  {
    if i.mode == Cr4 {
      RevealDeadlineInOrder(i);
    }
  }

  /** An attempt is recorded if and only if no batch of the schema is open: no deadline order or bound, number,
      status or intent check ever turns one away. */
  lemma AttemptRecordedIffNoneOpen(l: Ledger, i: Intended)
    requires FactsRead(i)
    ensures RecordCheck(l, AttemptOf(i)) == if HasOpen(l, i.schema) then Some(ConstraintViolated) else None
  {
    AttemptValid(i);
  }

  /** And then its outcome is stored, whatever the reply and whatever could be read after it. */
  lemma OutcomeAlwaysStored(l: Ledger, i: Intended, reply: Reply, sampled: Option<int>, refreshed: Option<int>)
    requires Inv(l) && FactsRead(i) && !HasOpen(l, i.schema)
    requires OutcomeOf(i, reply, sampled, refreshed).Some?
    ensures TransitionCheck(Record(l, AttemptOf(i)), l.next, OutcomeOf(i, reply, sampled, refreshed).value).None?
  {
    AttemptRecordedIffNoneOpen(l, i);
    AttemptValid(i);
    DeadlinesStayInWindow(i.submission, sampled);
    OutcomeFits(i, reply, sampled, refreshed);
  }

  lemma OutcomeIsValid(i: Intended, reply: Reply, sampled: Option<int>, refreshed: Option<int>)
    requires FactsRead(i) && OutcomeOf(i, reply, sampled, refreshed).Some?
    ensures var t := OutcomeOf(i, reply, sampled, refreshed).value;
      && OutcomeValid(t) && AtLeast(t.revealRound, 0)
      && (t.deadline.None? || t.deadline == PostDeadline(Some(PreparedDeadline(i.submission)), sampled))
  {
  }

  lemma TransitionedFits(b: Batch, t: Outcome)
    requires Constraints(b) && b.state == Prepared && OutcomeValid(t) && AtLeast(t.revealRound, 0)
    requires t.deadline.Some? ==> DeadlineBounded(t.deadline, b.submission, b.period)
    ensures Constraints(Transitioned(b, t))
  {
  }

  lemma OutcomeFits(i: Intended, reply: Reply, sampled: Option<int>, refreshed: Option<int>)
    requires FactsRead(i) && OutcomeOf(i, reply, sampled, refreshed).Some?
    ensures var t := OutcomeOf(i, reply, sampled, refreshed).value;
      OutcomeValid(t) && Constraints(Transitioned(BatchOf(AttemptOf(i)), t))
  {
    AttemptValid(i);
    DeadlinesStayInWindow(i.submission, sampled);
    OutcomeIsValid(i, reply, sampled, refreshed);
    TransitionedFits(BatchOf(AttemptOf(i)), OutcomeOf(i, reply, sampled, refreshed).value);
  }

  // -- are the stored deadlines in order ---------------------------------------------------

  /** The refreshed deadline, if it could be read, is the schedule's at the head read after the submission. */
  ghost predicate RefreshRead(sampled: Option<int>, refreshed: Option<int>) {
    sampled.Some? && refreshed.Some? ==>
        exists schedule, period :: RefreshedDeadline(sampled.value, refreshed.value, schedule, period)
  }

  ghost predicate RefreshedDeadline(head: int, refreshed: int, schedule: S.Schedule, period: int) {
    && schedule.currentBlock == head && schedule.tempo >= PERIOD_BLOCKS && period >= 1
    && S.Deadline(schedule, period, FINALITY_MARGIN_BLOCKS) == Ok(refreshed)
  }

  lemma RefreshedIsLater(sampled: Option<int>, refreshed: Option<int>)
    requires RefreshRead(sampled, refreshed)
    ensures sampled.Some? && refreshed.Some? ==>
      refreshed.value > sampled.value + PERIOD_BLOCKS + FINALITY_MARGIN_BLOCKS
  {
    if sampled.Some? && refreshed.Some? {
      var schedule, period :| RefreshedDeadline(sampled.value, refreshed.value, schedule, period);
      S.DeadlineNotBefore(schedule, period, FINALITY_MARGIN_BLOCKS, PERIOD_BLOCKS);
      AtLeastOnce(period, PERIOD_BLOCKS);
    }
  }

  /** A timelocked batch is not expected to be included after the block its reveal is given up. */
  predicate DeadlinesInOrder(deadline: Option<int>, revealDeadline: Option<int>) {
    deadline.Some? && revealDeadline.Some? ==> deadline.value <= revealDeadline.value
  }

  /** The deadlines stored once the outcome is known. */
  function StoredDeadlines(i: Intended, sampled: Option<int>, refreshed: Option<int>): (Option<int>, Option<int>) {
    var prepared := Some(PreparedDeadline(i.submission));
    (Later(prepared, PostDeadline(prepared, sampled)),
     Later(i.revealDeadline, PostRevealDeadline(i.mode, i.revealDeadline, sampled, refreshed)))
  }

  lemma StoredByOutcome(i: Intended, reply: Reply, sampled: Option<int>, refreshed: Option<int>)
    requires OutcomeOf(i, reply, sampled, refreshed).Some? && Open(OutcomeOf(i, reply, sampled, refreshed).value.state)
    ensures var stored := Transitioned(BatchOf(AttemptOf(i)), OutcomeOf(i, reply, sampled, refreshed).value);
      (stored.deadline, stored.revealDeadline) == StoredDeadlines(i, sampled, refreshed)
  {
  }

  /** Exactly when the stored deadlines of a timelocked attempt stay in order: unless the head could be read after the
      submission, the reveal deadline could not be read again, and the one prepared is before the inclusion deadline
      that this head gives. */
  lemma InOrderExactly(i: Intended, sampled: Option<int>, refreshed: Option<int>)
    requires FactsRead(i) && i.mode == Cr4 && RefreshRead(sampled, refreshed)
    ensures var (deadline, revealDeadline) := StoredDeadlines(i, sampled, refreshed);
      DeadlinesInOrder(deadline, revealDeadline) <==>
        || sampled.None? || refreshed.Some?
        || MinOf(sampled.value + PERIOD_BLOCKS + FINALITY_MARGIN_BLOCKS, i.submission + 2 * PERIOD_BLOCKS)
           <= i.revealDeadline.value
  {
    RevealDeadlineInOrder(i);
    RefreshedIsLater(sampled, refreshed);
  }

  /** From a tempo of 243 blocks on they always do. */
  lemma LongTempoInOrder(i: Intended, schedule: S.Schedule, period: int, sampled: Option<int>, refreshed: Option<int>)
    requires FactsRead(i) && i.mode == Cr4 && ScheduledDeadline(i, schedule, period) && RefreshRead(sampled, refreshed)
    requires schedule.tempo >= 2 * PERIOD_BLOCKS - FINALITY_MARGIN_BLOCKS - 1
    ensures var (deadline, revealDeadline) := StoredDeadlines(i, sampled, refreshed);
      DeadlinesInOrder(deadline, revealDeadline)
  {
    var shortest := 2 * PERIOD_BLOCKS - FINALITY_MARGIN_BLOCKS - 1;
    S.DeadlineNotBefore(schedule, period, FINALITY_MARGIN_BLOCKS, shortest);
    AtLeastOnce(period, shortest);
    InOrderExactly(i, sampled, refreshed);
  }

  /** At every shorter tempo some schedule loses the order: an epoch forced at the inclusion block, and a head read
      late. */
  lemma ShorterTempoLosesOrder(i: Intended, tempo: int)
    requires PERIOD_BLOCKS <= tempo < 2 * PERIOD_BLOCKS - FINALITY_MARGIN_BLOCKS - 1
    requires i.mode == Cr4 && i.submission >= i.baseline && i.rows == []
    requires i.revealDeadline == Some(i.submission + 1 + tempo + FINALITY_MARGIN_BLOCKS)
    ensures FactsRead(i)
    ensures var (deadline, revealDeadline) := StoredDeadlines(i, Some(i.submission + PERIOD_BLOCKS), None);
      !DeadlinesInOrder(deadline, revealDeadline)
  {
    var schedule := S.Schedule(i.submission, 0, 0, tempo, S.MAX_TEMPO_BLOCKS, i.submission);
    S.ForcedEpochDeadline(schedule, 1, FINALITY_MARGIN_BLOCKS);
    assert ScheduledDeadline(i, schedule, 1);
  }

  // -- the whole attempt --------------------------------------------------------------------

  /** The record of a vector the owner rechecks refuse: failed, and with no inclusion deadline. */
  function RefusedOf(i: Intended): NewEmission {
    AttemptOf(i).(status := FailedStatus, state := Failed, deadline := None)
  }

  /** A refusal is always recorded, whether a batch is open or not. */
  lemma RefusalAlwaysRecorded(l: Ledger, i: Intended)
    requires FactsRead(i)
    ensures RecordCheck(l, RefusedOf(i)).None?
    ensures Record(l, RefusedOf(i)).batches[l.next].state == Failed
  {
    AttemptValid(i);
  }

  /** What was stored when the chain client was asked to submit, the batch it was asked for, and its answer. */
  datatype Call = Call(stored: Ledger, id: nat, schema: string, answer: Reply)

  /** The chain client. It may be asked to submit only what is stored as prepared. */
  class Client {
    ghost var calls: seq<Call>

    constructor ()
      ensures calls == []
    {
      calls := [];
    }

    /** `answer` is what the chain makes of it. */
    method SetWeights(storage: Storage, id: nat, i: Intended, answer: Reply) returns (reply: Reply)
      requires id in storage.batches && storage.batches[id] == BatchOf(AttemptOf(i))
      modifies this
      ensures calls == old(calls) + [Call(storage.Contents(), id, i.schema, answer)] && reply == answer
    {
      calls := calls + [Call(storage.Contents(), id, i.schema, answer)];
      reply := answer;
    }
  }

  /** What is stored and what the client was asked. */
  datatype Driving = Driving(ledger: Ledger, calls: seq<Call>)

  /** One emission: the refused vector's record, nothing while a batch is open, or the attempt and its outcome. */
  function Emitted(d: Driving, i: Intended, cleared: bool, answer: Reply, sampled: Option<int>, refreshed: Option<int>)
    : Driving
  {
    if !cleared then d.(ledger := Record(d.ledger, RefusedOf(i)))
    else if HasOpen(d.ledger, i.schema) then d
    else
      var prepared, outcome := Record(d.ledger, AttemptOf(i)), OutcomeOf(i, answer, sampled, refreshed);
      Driving(if outcome.Some? then Transition(prepared, d.ledger.next, outcome.value) else prepared,
              d.calls + [Call(prepared, d.ledger.next, i.schema, answer)])
  }

  /** The chain turned the vote away, or it never left this process. */
  predicate TurnedAway(answer: Reply) {
    answer.Refused? || answer.LocallyRateLimited?
  }

  /** The vote was accepted with what its mode needs: a timelocked one with its commitment. */
  predicate Taken(mode: Mode, answer: Reply) {
    answer.Accepted? && (mode == Cr4 ==> answer.commitment.Some?)
  }

  /** The answer's commitment is what is stored, and none otherwise. */
  ghost predicate StoresCommitment(b: Batch, mode: Mode, answer: Reply) {
    if Taken(mode, answer) && answer.commitment.Some? then
      && b.mode == Some(Cr4) && b.commitmentHash == Some(answer.commitment.value.0)
      && b.revealRound == Some(answer.commitment.value.1)
    else b.mode == Some(mode) && b.commitmentHash.None? && b.revealRound.None?
  }

  /** The inclusion deadline prepared, moved on with the head read after the submission, to at most two periods. */
  ghost predicate DeadlineFrom(submission: int, sampled: Option<int>, deadline: int) {
    && (sampled.None? ==> deadline == submission + 140)
    && (sampled.Some? ==>
          deadline == if sampled.value <= submission then submission + 140
                      else if sampled.value <= submission + 116 then sampled.value + 140 else submission + 256)
  }

  /** The reveal deadline prepared, or a later one read again for a timelocked vote that may be on its way. */
  ghost predicate RevealDeadlineFrom(i: Intended, sampled: Option<int>, refreshed: Option<int>, deadline: Option<int>) {
    deadline ==
      if i.mode == Cr4 && sampled.Some? && refreshed.Some?
      then Some(if i.revealDeadline.None? then refreshed.value else MaxOf(i.revealDeadline.value, refreshed.value))
      else i.revealDeadline
  }

  /** What each answer leaves of the batch: failed exactly when the vote was turned away, submitted exactly when taken,
      prepared exactly when the process must restart, and otherwise ambiguous. */
  ghost predicate Answered(b: Batch, i: Intended, answer: Reply, sampled: Option<int>, refreshed: Option<int>) {
    && b.schema == i.schema && b.submission == Some(i.submission)
    && (b.state == Failed <==> TurnedAway(answer)) && (b.state == Submitted <==> Taken(i.mode, answer))
    && (b.state == Prepared <==> answer.RestartRequired?) && (b.state == Failed || Open(b.state))
    && StoresCommitment(b, i.mode, answer)
    && b.deadline.Some?
    && if b.state == Submitted || b.state == Ambiguous then
         DeadlineFrom(i.submission, sampled, b.deadline.value)
         && RevealDeadlineFrom(i, sampled, refreshed, b.revealDeadline)
       else b.deadline.value == i.submission + 140 && b.revealDeadline == i.revealDeadline
  }

  lemma OutcomeAnswers(i: Intended, answer: Reply, sampled: Option<int>, refreshed: Option<int>)
    requires OutcomeOf(i, answer, sampled, refreshed).Some?
    ensures var b := Transitioned(BatchOf(AttemptOf(i)), OutcomeOf(i, answer, sampled, refreshed).value);
      Answered(b, i, answer, sampled, refreshed)
  {
    match answer
    case LocallyRateLimited =>
    case Refused =>
    case ProviderThrottled =>
    case Stalled =>
    case OtherError =>
    case Accepted(commitment) =>
  }

  lemma RestartAnswers(i: Intended, sampled: Option<int>, refreshed: Option<int>)
    ensures Answered(BatchOf(AttemptOf(i)), i, RestartRequired, sampled, refreshed)
  {
  }

  /** The row an emission that asks the client stores. */
  function RowAfter(i: Intended, answer: Reply, sampled: Option<int>, refreshed: Option<int>): Batch {
    var outcome := OutcomeOf(i, answer, sampled, refreshed);
    if outcome.Some? then Transitioned(BatchOf(AttemptOf(i)), outcome.value) else BatchOf(AttemptOf(i))
  }

  lemma StoredRow(l: Ledger, a: NewEmission, outcome: Option<Outcome>)
    requires RecordCheck(l, a).None?
    requires outcome.Some? ==> TransitionCheck(Record(l, a), l.next, outcome.value).None?
    ensures (if outcome.Some? then Transition(Record(l, a), l.next, outcome.value) else Record(l, a)).batches
         == l.batches[l.next := if outcome.Some? then Transitioned(BatchOf(a), outcome.value) else BatchOf(a)]
  {
  }

  lemma EmittedStores(d: Driving, i: Intended, answer: Reply, sampled: Option<int>, refreshed: Option<int>)
    requires Inv(d.ledger) && FactsRead(i) && !HasOpen(d.ledger, i.schema)
    ensures Emitted(d, i, true, answer, sampled, refreshed).ledger.batches
         == d.ledger.batches[d.ledger.next := RowAfter(i, answer, sampled, refreshed)]
  {
    AttemptRecordedIffNoneOpen(d.ledger, i);
    if OutcomeOf(i, answer, sampled, refreshed).Some? {
      OutcomeAlwaysStored(d.ledger, i, answer, sampled, refreshed);
    }
    StoredRow(d.ledger, AttemptOf(i), OutcomeOf(i, answer, sampled, refreshed));
  }

  /** An emission that asks the client leaves exactly this of the batch it asked for, and every other as it was. */
  lemma EmittedAnswers(d: Driving, i: Intended, answer: Reply, sampled: Option<int>, refreshed: Option<int>)
    requires Inv(d.ledger) && FactsRead(i) && !HasOpen(d.ledger, i.schema)
    ensures
      var after := Emitted(d, i, true, answer, sampled, refreshed).ledger;
      && d.ledger.next !in d.ledger.batches && after.batches.Keys == d.ledger.batches.Keys + {d.ledger.next}
      && Answered(after.batches[d.ledger.next], i, answer, sampled, refreshed)
      && forall id | id in d.ledger.batches :: after.batches[id] == d.ledger.batches[id]
  {
    assert RowFits(d.ledger, d.ledger.next);
    EmittedStores(d, i, answer, sampled, refreshed);
    if OutcomeOf(i, answer, sampled, refreshed).Some? {
      OutcomeAnswers(i, answer, sampled, refreshed);
    } else {
      RestartAnswers(i, sampled, refreshed);
    }
  }

  /** Prepare durably, submit once, store the outcome. `cleared` says whether the owner rechecks let the vector pass;
      `answer`, `sampled` and `refreshed` are what the chain client answers; `sent` says whether it was asked at all. */
  method EmitWeightCandidate(storage: Storage, client: Client, i: Intended, cleared: bool, answer: Reply,
                             sampled: Option<int>, refreshed: Option<int>)
    returns (sent: bool)
    requires storage.Valid() && FactsRead(i)
    modifies storage, client
    ensures storage.Valid()
    ensures Driving(storage.Contents(), client.calls) ==
      Emitted(old(Driving(storage.Contents(), client.calls)), i, cleared, answer, sampled, refreshed)
    ensures sent <==> cleared && !HasOpen(old(storage.Contents()), i.schema)
    ensures var prepared := Record(old(storage.Contents()), AttemptOf(i));
      && client.calls ==
           old(client.calls) + (if sent then [Call(prepared, old(storage.next), i.schema, answer)] else [])
      && (sent ==> old(storage.next) in prepared.batches && prepared.batches[old(storage.next)].state == Prepared)
    ensures !sent && cleared ==> storage.Contents() == old(storage.Contents())
    ensures !cleared ==> storage.Contents() == Record(old(storage.Contents()), RefusedOf(i))
    ensures sent ==>
      && storage.batches.Keys == old(storage.batches).Keys + {old(storage.next)}
      && Answered(storage.batches[old(storage.next)], i, answer, sampled, refreshed)
      && forall id | id in old(storage.batches) :: storage.batches[id] == old(storage.batches)[id]
  {
    if !cleared {
      RefusalAlwaysRecorded(storage.Contents(), i);
      var refused := storage.RecordWeightEmission(RefusedOf(i));
      return false;
    }
    AttemptRecordedIffNoneOpen(storage.Contents(), i);
    ghost var before := Driving(storage.Contents(), client.calls);
    var prepared := storage.RecordWeightEmission(AttemptOf(i));
    if prepared.Err? {
      return false;
    }
    EmittedAnswers(before, i, answer, sampled, refreshed);
    var reply := client.SetWeights(storage, prepared.value, i, answer);
    var outcome := OutcomeOf(i, reply, sampled, refreshed);
    if outcome.Some? {
      OutcomeAlwaysStored(before.ledger, i, reply, sampled, refreshed);
      var stored := storage.TransitionWeightEmissionAttempt(prepared.value, outcome.value);
      assert stored.Ok?;
    }
    return true;
  }
}
