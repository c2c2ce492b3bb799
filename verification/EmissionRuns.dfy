/** What holds over every run of the emission store's transactions. */
module EmissionRuns {
  import opened Wrappers
  import opened EmissionStore

  // -- closed batches are frozen --------------------------------------------------

  lemma StepFreezesClosed(l: Ledger, e: Event, id: nat)
    requires Inv(l) && id in l.batches && !Open(l.batches[id].state)
    ensures id in Step(l, e).batches && Step(l, e).batches[id] == l.batches[id]
  {
    assert RowFits(l, id);
  }

  /** Confirmed, unconfirmed and failed are final: no later transaction changes any column of a closed batch. */
  lemma {:induction false} ClosedIsFinal(l: Ledger, events: seq<Event>, id: nat)
    requires Inv(l) && id in l.batches && !Open(l.batches[id].state)
    ensures id in Run(l, events).batches && Run(l, events).batches[id] == l.batches[id]
    decreases |events|
  {
    if events != [] {
      ClosedIsFinal(l, events[..|events| - 1], id);
      StepFreezesClosed(Run(l, events[..|events| - 1]), events[|events| - 1], id);
    }
  }

  // -- what a later row keeps of an earlier one -------------------------------------

  predicate Grows(a: Option<int>, b: Option<int>) {
    a.Some? ==> b.Some? && b.value >= a.value
  }

  /** Identity, vector and intent never change, deadlines and cursor only grow, and a batch leaves `prepared`
      for good. */
  predicate Follows(a: Batch, b: Batch) {
    && b.schema == a.schema && b.submission == a.submission && b.baseline == a.baseline && b.period == a.period
    && b.evidence == a.evidence && b.intent == a.intent && b.rows == a.rows
    && Grows(a.deadline, b.deadline) && Grows(a.revealDeadline, b.revealDeadline) && Grows(a.cursor, b.cursor)
    && (b.state == Prepared ==> a.state == Prepared)
    && (a.emitted ==> b.emitted)
    && (!Open(a.state) ==> b == a)
  }

  lemma ResolveOneFollows(b: Batch, schema: string, s: Snapshot, margin: int, at: string)
    requires Constraints(b) && (b.emitted ==> b.state == Confirmed)
    ensures Follows(b, ResolveOne(b, schema, s, margin, at))
  {
    if Due(b, schema) {
      match Decide(b, s, margin)
      case Keep =>
      case Confirm =>
      case Unconfirm =>
      case Observe(block, lastUpdate, hash, round) =>
    }
  }

  lemma RecordFollows(l: Ledger, a: NewEmission, id: nat)
    requires Inv(l) && id in l.batches
    ensures id in Record(l, a).batches && Follows(l.batches[id], Record(l, a).batches[id])
  {
    assert RowFits(l, id);
  }

  lemma TransitionedFollows(b: Batch, t: Outcome)
    requires b.state == Prepared && OutcomeValid(t)
    ensures Follows(b, Transitioned(b, t))
  {
  }

  lemma TransitionFollows(l: Ledger, i: nat, t: Outcome, id: nat)
    requires Inv(l) && id in l.batches
    ensures id in Transition(l, i, t).batches && Follows(l.batches[id], Transition(l, i, t).batches[id])
  {
    if TransitionCheck(l, i, t).None? {
      TransitionedFollows(l.batches[i], t);
    }
  }

  lemma AdvanceFollows(l: Ledger, i: nat, through: int, id: nat)
    requires Inv(l) && id in l.batches
    ensures id in Advance(l, i, through).batches && Follows(l.batches[id], Advance(l, i, through).batches[id])
  {
  }

  lemma StepFollows(l: Ledger, e: Event, id: nat)
    requires Inv(l) && id in l.batches
    ensures id in Step(l, e).batches && Follows(l.batches[id], Step(l, e).batches[id])
  {
    assert RowFits(l, id);
    match e
    case RecordEvent(a) => RecordFollows(l, a, id);
    case TransitionEvent(i, t) => TransitionFollows(l, i, t, id);
    case ResolveEvent(schema, s, margin, at) => ResolveOneFollows(l.batches[id], schema, s, margin, at);
    case AdvanceEvent(i, through) => AdvanceFollows(l, i, through, id);
  }

  lemma FollowsTransitive(a: Batch, b: Batch, c: Batch)
    requires Follows(a, b) && Follows(b, c)
    ensures Follows(a, c)
  {
  }

  /** Along every run, deadlines and cursor only grow and the intent stays. */
  lemma {:induction false} RunFollows(l: Ledger, events: seq<Event>, id: nat)
    requires Inv(l) && id in l.batches
    ensures id in Run(l, events).batches && Follows(l.batches[id], Run(l, events).batches[id])
    decreases |events|
  {
    if events != [] {
      var before := Run(l, events[..|events| - 1]);
      RunFollows(l, events[..|events| - 1], id);
      StepFollows(before, events[|events| - 1], id);
      FollowsTransitive(l.batches[id], before.batches[id], Run(l, events).batches[id]);
    }
  }

  /** Every reachable ledger has at most one open batch for a schema, and an emitted batch is a confirmed one. */
  lemma SingleFlight(events: seq<Event>, i: nat, j: nat)
    requires i in Run(EMPTY, events).batches && j in Run(EMPTY, events).batches
    requires var l := Run(EMPTY, events);
      Open(l.batches[i].state) && Open(l.batches[j].state) && l.batches[i].schema == l.batches[j].schema
    ensures i == j
  {
    assert Clash(Run(EMPTY, events), i, j);
  }

  // -- confirmed means evidence ---------------------------------------------------------

  lemma {:induction false} AsMapHolds<T>(pairs: seq<(int, T)>, u: int, t: T)
    requires DistinctKeys(pairs)
    ensures (u, t) in pairs <==> u in AsMap(pairs) && AsMap(pairs)[u] == t
  {
    if pairs != [] {
      var n := |pairs| - 1;
      AsMapHolds(pairs[..n], u, t);
      assert pairs == pairs[..n] + [pairs[n]];
      if u == pairs[n].0 && (u, t) in pairs[..n] {
        assert false;
      }
    }
  }

  /** The chain's weights are exactly the batch's, and each target UID still belongs to the hotkey meant. */
  ghost predicate ExactVector(b: Batch, s: Snapshot) {
    && (forall u, w :: (u, w) in s.weights <==> u in b.rows && b.rows[u].weight == Some(w))
    && (forall u | u in b.rows && b.rows[u].weight.Some? :: (u, b.rows[u].hotkey) in s.hotkeys)
  }

  lemma VectorMatchesExactly(b: Batch, s: Snapshot)
    requires SnapshotValid(s)
    ensures VectorMatches(b, s) <==> ExactVector(b, s)
  {
    var targets := TargetsOf(b.rows);
    var expected := map u | u in targets :: targets[u].1;
    forall u, w ensures (u, w) in s.weights <==> u in AsMap(s.weights) && AsMap(s.weights)[u] == w {
      AsMapHolds(s.weights, u, w);
    }
    forall u, h ensures (u, h) in s.hotkeys <==> u in AsMap(s.hotkeys) && AsMap(s.hotkeys)[u] == h {
      AsMapHolds(s.hotkeys, u, h);
    }
    forall u, w ensures (u in expected && expected[u] == w) <==> (u in b.rows && b.rows[u].weight == Some(w)) {
    }
    if ExactVector(b, s) {
      forall u, w ensures Holds(expected, u, w) <==> Holds(AsMap(s.weights), u, w) {
        assert (u, w) in s.weights <==> u in b.rows && b.rows[u].weight == Some(w);
      }
      SameMaps(expected, AsMap(s.weights));
      forall u | u in targets ensures u in AsMap(s.hotkeys) && AsMap(s.hotkeys)[u] == targets[u].0 {
        assert (u, b.rows[u].hotkey) in s.hotkeys;
      }
    }
  }

  ghost predicate Holds(m: map<int, int>, u: int, w: int) {
    u in m && m[u] == w
  }

  lemma SameMaps(a: map<int, int>, b: map<int, int>)
    requires forall u, w :: Holds(a, u, w) <==> Holds(b, u, w)
    ensures a == b
  {
    forall u | u in a ensures u in b && a[u] == b[u] {
      assert Holds(a, u, a[u]);
    }
    forall u | u in b ensures u in a {
      assert Holds(b, u, b[u]);
    }
  }

  /** The stored intent hash is the hash of exactly this identity and vector, under no other protocol key. */
  ghost predicate ExactIntent(b: Batch, s: Snapshot) {
    exists key :: (key == None || key == Some(CURRENT_VERSION_KEY))
      && b.intent == Some(IntentHash(key, Payload(s.chain, s.netuid, s.uid, s.hotkey, TargetsOf(b.rows))))
  }

  ghost predicate ConfirmationEvidence(b: Batch, s: Snapshot, margin: int) {
    && SnapshotValid(s) && b.submission.Some? && b.baseline.Some? && b.period.Some?
    && IdentityMatches(b, s) && ExactVector(b, s) && ExactIntent(b, s)
    && if b.mode == Some(Direct) then
         b.deadline.Some? && MaxOf(b.submission.value, b.baseline.value) < s.lastUpdate <= b.deadline.value - margin
       else
         |Candidates(b, s, margin)| <= 1 && exists r :: r in s.revealEvents && RevealCounts(b, s, r)
  }

  lemma MatchesExactly(b: Batch, s: Snapshot)
    requires SnapshotValid(s) && b.intent.Some?
    ensures VectorMatches(b, s) && IntentMatches(b, s) <==> ExactVector(b, s) && ExactIntent(b, s)
  {
    VectorMatchesExactly(b, s);
    if IntentMatches(b, s) {
      assert ExactIntent(b, s);
    }
  }

  lemma RevealSeenExactly(b: Batch, s: Snapshot)
    requires b.submission.Some?
    ensures RevealSeen(b, s) <==> exists r :: r in s.revealEvents && RevealCounts(b, s, r)
  {
    if i :| 0 <= i < |s.revealEvents| && RevealCounts(b, s, s.revealEvents[i]) {
      assert s.revealEvents[i] in s.revealEvents;
    }
  }

  lemma DecideConfirms(b: Batch, s: Snapshot, margin: int)
    requires Constraints(b) && Open(b.state)
    ensures Decide(b, s, margin).Confirm? <==>
      && IdentityMatches(b, s) && s.block >= MaxOf(b.submission.value, b.baseline.value)
      && VectorMatches(b, s) && IntentMatches(b, s)
      && if b.mode == Some(Direct)
         then MaxOf(b.submission.value, b.baseline.value) < s.lastUpdate <= b.deadline.value - margin
         else |Candidates(b, s, margin)| <= 1 && RevealSeen(b, s)
  {
  }

  /** One resolution confirms an open batch if and only if the snapshot is full evidence of it. */
  lemma ConfirmedIffEvidence(b: Batch, schema: string, s: Snapshot, margin: int, at: string)
    requires Constraints(b) && Due(b, schema) && ResolveCheck(s, margin).None?
    ensures ResolveOne(b, schema, s, margin, at).state == Confirmed <==>
      ConfirmationEvidence(b, s, margin) && s.block >= b.submission.value
  {
    MatchesExactly(b, s);
    RevealSeenExactly(b, s);
    DecideConfirms(b, s, margin);
  }

  ghost predicate ConfirmedAt(events: seq<Event>, i: nat, id: nat) {
    && i < |events| && events[i].ResolveEvent? && ResolveCheck(events[i].snapshot, events[i].margin).None?
    && (var before := Run(EMPTY, events[..i]); id in before.batches && Open(before.batches[id].state))
    && id in Run(EMPTY, events).batches
    && Run(EMPTY, events).batches[id].schema == events[i].schema
    && ConfirmationEvidence(Run(EMPTY, events).batches[id], events[i].snapshot, events[i].margin)
  }

  lemma EvidenceUnchanged(b: Batch, s: Snapshot, margin: int, at: string)
    requires ConfirmationEvidence(b, s, margin)
    ensures ConfirmationEvidence(Apply(b, Confirm, at), s, margin)
  {
    var c := Apply(b, Confirm, at);
    SameCandidates(b, c, s, margin, s.commitments);
    if b.mode != Some(Direct) {
      var r :| r in s.revealEvents && RevealCounts(b, s, r);
      assert RevealCounts(c, s, r);
    }
  }

  lemma {:induction false} SameCandidates(b: Batch, c: Batch, s: Snapshot, margin: int, commits: seq<Commit>)
    requires b.submission.Some? && b.period.Some?
    requires c == b.(state := c.state, confirmedAt := c.confirmedAt, emitted := c.emitted)
    ensures CandidatesIn(c, s, margin, commits) == CandidatesIn(b, s, margin, commits)
  {
    if commits != [] {
      SameCandidates(b, c, s, margin, commits[1..]);
    }
  }

  lemma StepConfirms(l: Ledger, e: Event, id: nat)
    requires Inv(l) && id in Step(l, e).batches && Step(l, e).batches[id].state == Confirmed
    requires id in l.batches ==> l.batches[id].state != Confirmed
    ensures e.ResolveEvent? && ResolveCheck(e.snapshot, e.margin).None? && id in l.batches
      && Due(l.batches[id], e.schema)
      && ConfirmationEvidence(Step(l, e).batches[id], e.snapshot, e.margin)
  {
    assert RowFits(l, id);
    if id in l.batches && e.ResolveEvent? {
      var b := l.batches[id];
      ConfirmedIffEvidence(b, e.schema, e.snapshot, e.margin, e.at);
      EvidenceUnchanged(b, e.snapshot, e.margin, e.at);
    }
  }

  /** In every reachable ledger, a confirmed batch was closed by some resolution whose finalized snapshot showed
      this identity, exactly this vector on these hotkeys, this intent, and the update or reveal in its window. */
  lemma {:induction false} ConfirmedHasEvidence(events: seq<Event>, id: nat)
    requires id in Run(EMPTY, events).batches && Run(EMPTY, events).batches[id].state == Confirmed
    ensures exists i :: ConfirmedAt(events, i, id)
    decreases |events|
  {
    var n := |events| - 1;
    var front := events[..n];
    var before := Run(EMPTY, front);
    if id in before.batches && before.batches[id].state == Confirmed {
      ConfirmedHasEvidence(front, id);
      var i :| ConfirmedAt(front, i, id);
      ConfirmedAtStays(events, i, id);
    } else {
      ConfirmedNow(events, before, id);
    }
  }

  lemma ConfirmedAtStays(events: seq<Event>, i: nat, id: nat)
    requires events != [] && ConfirmedAt(events[..|events| - 1], i, id)
    requires Run(EMPTY, events[..|events| - 1]).batches[id].state == Confirmed
    ensures ConfirmedAt(events, i, id)
  {
    var front := events[..|events| - 1];
    StepFreezesClosed(Run(EMPTY, front), events[|events| - 1], id);
    assert front[..i] == events[..i];
  }

  lemma ConfirmedNow(events: seq<Event>, before: Ledger, id: nat)
    requires events != [] && before == Run(EMPTY, events[..|events| - 1])
    requires id in Run(EMPTY, events).batches && Run(EMPTY, events).batches[id].state == Confirmed
    requires id in before.batches ==> before.batches[id].state != Confirmed
    ensures ConfirmedAt(events, |events| - 1, id)
  {
    StepConfirms(before, events[|events| - 1], id);
    StepFollows(before, events[|events| - 1], id);
  }

  // -- the intent hash is sealed -----------------------------------------------------------

  predicate Sealed(b: Batch) {
    EvidenceSet(b.evidence, b.mode, b.intent)
    && b.intent.value == IntentHash(Some(CURRENT_VERSION_KEY), PayloadOf(b.evidence, b.rows))
  }

  predicate MustSeal(b: Batch) {
    Open(b.state) || b.state == Confirmed
  }

  lemma RecordSeals(l: Ledger, a: NewEmission)
    requires RecordCheck(l, a).None? && MustSeal(BatchOf(a))
    ensures Sealed(BatchOf(a))
  {
  }

  lemma FollowingSeals(a: Batch, b: Batch)
    requires Follows(a, b) && Sealed(a) && b.mode.Some?
    ensures Sealed(b)
  {
  }

  lemma StepKeepsSealed(l: Ledger, e: Event, id: nat)
    requires Inv(l) && id in l.batches && (MustSeal(l.batches[id]) ==> Sealed(l.batches[id]))
    requires MustSeal(Step(l, e).batches[id])
    ensures Sealed(Step(l, e).batches[id])
  {
    StepFollows(l, e, id);
    StepKeepsInv(l, e);
    assert RowFits(Step(l, e), id);
    if MustSeal(l.batches[id]) {
      FollowingSeals(l.batches[id], Step(l, e).batches[id]);
    }
  }

  lemma StepSeals(l: Ledger, e: Event, id: nat)
    requires Inv(l) && id in Step(l, e).batches
    requires id in l.batches && MustSeal(l.batches[id]) ==> Sealed(l.batches[id])
    requires MustSeal(Step(l, e).batches[id])
    ensures Sealed(Step(l, e).batches[id])
  {
    if id in l.batches {
      StepKeepsSealed(l, e, id);
    } else {
      RecordSeals(l, e.emission);
    }
  }

  /** In every reachable ledger, an open or confirmed batch's intent hash is the hash, under the current protocol
      key, of its own stored identity and vector: neither can have been replaced. */
  lemma {:induction false} IntentStaysSealed(events: seq<Event>, id: nat)
    requires var l := Run(EMPTY, events);
      id in l.batches && MustSeal(l.batches[id])
    ensures Sealed(Run(EMPTY, events).batches[id])
    decreases |events|
  {
    var n := |events| - 1;
    var before := Run(EMPTY, events[..n]);
    if id in before.batches && MustSeal(before.batches[id]) {
      IntentStaysSealed(events[..n], id);
    }
    StepSeals(before, events[n], id);
  }

  // -- when a batch closes without confirmation ------------------------------------------

  /** A direct batch of this identity is closed by the first resolution past its deadline, and by no earlier one
      without evidence. */
  lemma DirectClosesExactly(b: Batch, schema: string, s: Snapshot, margin: int, at: string)
    requires Constraints(b) && Due(b, schema) && ResolveCheck(s, margin).None?
    requires b.mode == Some(Direct) && IdentityMatches(b, s)
    ensures var r := ResolveOne(b, schema, s, margin, at);
      && (!Open(r.state) <==> s.block > b.deadline.value || ConfirmationEvidence(b, s, margin))
      && (r.state == Unconfirmed <==> s.block > b.deadline.value && !ConfirmationEvidence(b, s, margin))
      && (Open(r.state) ==> r == b)
  {
    ConfirmedIffEvidence(b, schema, s, margin, at);
    assert b.deadline.value >= b.submission.value + b.period.value;
  }

  /** A batch of another identity can never confirm, and closes exactly when both its deadlines have passed. */
  lemma ForeignClosesExactly(b: Batch, schema: string, s: Snapshot, margin: int, at: string)
    requires Constraints(b) && Due(b, schema) && !IdentityMatches(b, s)
    ensures var r := ResolveOne(b, schema, s, margin, at);
      && (!Open(r.state) <==>
            s.block > b.deadline.value && (b.revealDeadline.Some? ==> s.block > b.revealDeadline.value))
      && (!Open(r.state) ==> r.state == Unconfirmed) && (Open(r.state) ==> r == b)
  {
  }

  /** A timelocked batch of this identity becomes unconfirmed exactly so: two candidate commitments past the
      inclusion deadline, or, its scan complete, past its expiry with no commitment still pending or first seen. */
  lemma Cr4UnconfirmedExactly(b: Batch, schema: string, s: Snapshot, margin: int, at: string)
    requires Constraints(b) && Due(b, schema) && ResolveCheck(s, margin).None?
    requires b.mode == Some(Cr4) && IdentityMatches(b, s) && s.block >= b.submission.value
    ensures ResolveOne(b, schema, s, margin, at).state == Unconfirmed <==>
      var n := |Candidates(b, s, margin)|;
      if n > 1 then s.block > b.deadline.value
      else
        && !ConfirmationEvidence(b, s, margin) && s.scanComplete && s.block > Expiry(b).value
        && (n == 1 ==> b.observedBlock.Some? && b.observedLastUpdate.None?)
  {
    ConfirmedIffEvidence(b, schema, s, margin, at);
  }
}
