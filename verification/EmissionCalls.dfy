/** One submission in flight, over whole runs: when the chain client may be asked again for a schema. */
module EmissionCalls {
  import opened Wrappers
  import opened EmissionStore
  import opened EmissionRuns
  import opened EmissionDriver

  /** What the validator does with the store: emit, resolve by a finalized snapshot, move the scan on. */
  datatype Deed =
    | Emit(i: Intended, cleared: bool, answer: Reply, sampled: Option<int>, refreshed: Option<int>)
    | Resolved(schema: string, snapshot: Snapshot, margin: int, at: string)
    | Scanned(id: nat, through: int)

  ghost predicate GoodDeed(deed: Deed) {
    deed.Emit? ==> FactsRead(deed.i)
  }

  ghost predicate GoodDeeds(deeds: seq<Deed>) {
    forall k | 0 <= k < |deeds| :: GoodDeed(deeds[k])
  }

  ghost function Act(d: Driving, deed: Deed): Driving
    requires Inv(d.ledger)
  {
    match deed
    case Emit(i, cleared, answer, sampled, refreshed) => Emitted(d, i, cleared, answer, sampled, refreshed)
    case Resolved(schema, s, margin, at) => d.(ledger := Resolve(d.ledger, schema, s, margin, at))
    case Scanned(id, through) => d.(ledger := Advance(d.ledger, id, through))
  }

  lemma AttemptKeepsInv(l: Ledger, i: Intended, outcome: Option<Outcome>)
    requires Inv(l)
    ensures Inv(Record(l, AttemptOf(i)))
    ensures outcome.Some? ==> Inv(Transition(Record(l, AttemptOf(i)), l.next, outcome.value))
  {
    RecordKeepsInv(l, AttemptOf(i));
    if outcome.Some? {
      TransitionKeepsInv(Record(l, AttemptOf(i)), l.next, outcome.value);
    }
  }

  lemma ActKeepsInv(d: Driving, deed: Deed)
    requires Inv(d.ledger)
    ensures Inv(Act(d, deed).ledger)
  {
    match deed
    case Emit(i, cleared, answer, sampled, refreshed) =>
      if !cleared {
        RecordKeepsInv(d.ledger, RefusedOf(i));
      } else {
        AttemptKeepsInv(d.ledger, i, OutcomeOf(i, answer, sampled, refreshed));
      }
    case Resolved(schema, s, margin, at) => ResolveKeepsInv(d.ledger, schema, s, margin, at);
    case Scanned(id, through) => AdvanceKeepsInv(d.ledger, id, through);
  }

  /** From an empty store, with nothing asked yet. */
  ghost function Drive(deeds: seq<Deed>): (d: Driving)
    ensures Inv(d.ledger)
    decreases |deeds|
  {
    if deeds == [] then Driving(EMPTY, []) else
      var before := Drive(deeds[..|deeds| - 1]);
      ActKeepsInv(before, deeds[|deeds| - 1]);
      Act(before, deeds[|deeds| - 1])
  }

  // -- one deed ---------------------------------------------------------------

  const MORTALITY_BLOCKS := 128
  const MARGIN_BLOCKS := 12

  /** Neither deadline is within the blocks, and a margin, in which the extrinsic sent at the submission may still be
      included. */
  ghost predicate OutlivesCall(b: Batch) {
    && b.submission.Some? && b.deadline.Some?
    && b.deadline.value >= b.submission.value + MORTALITY_BLOCKS + MARGIN_BLOCKS
    && (b.revealDeadline.Some? ==> b.revealDeadline.value >= b.submission.value + MORTALITY_BLOCKS + MARGIN_BLOCKS)
  }

  /** The deed closes the batch: on evidence, or once the extrinsic can no longer be included. */
  ghost predicate Closes(deed: Deed, b: Batch) {
    && deed.Resolved? && deed.schema == b.schema && b.submission.Some?
    && (b.state == Confirmed
        || (b.state == Unconfirmed
            && deed.snapshot.block > b.submission.value + MORTALITY_BLOCKS + MARGIN_BLOCKS))
  }

  /** A deed leaves a stored batch's schema and deadlines, never changes a closed one, and closes none but by a
      resolution of its schema. */
  ghost predicate Carried(a: Batch, b: Batch, deed: Deed) {
    && b.schema == a.schema && b.submission == a.submission
    && b.deadline == a.deadline && b.revealDeadline == a.revealDeadline
    && (!Open(a.state) ==> b.state == a.state)
    && (Open(a.state) && !Open(b.state) ==> b.state != Failed && (OutlivesCall(a) ==> Closes(deed, b)))
  }

  lemma ResolveCarries(b: Batch, schema: string, s: Snapshot, margin: int, at: string)
    requires Constraints(b) && (b.emitted ==> b.state == Confirmed) && ResolveCheck(s, margin).None?
    ensures Carried(b, ResolveOne(b, schema, s, margin, at), Resolved(schema, s, margin, at))
  {
    if Due(b, schema) {
      match Decide(b, s, margin)
      case Keep =>
      case Confirm =>
      case Unconfirm =>
      case Observe(block, lastUpdate, hash, round) =>
    }
  }

  lemma EmitCarries(d: Driving, deed: Deed, id: nat)
    requires Inv(d.ledger) && GoodDeed(deed) && deed.Emit? && id in d.ledger.batches
    ensures id in Act(d, deed).ledger.batches && Act(d, deed).ledger.batches[id] == d.ledger.batches[id]
  {
    assert RowFits(d.ledger, id);
    if deed.cleared && !HasOpen(d.ledger, deed.i.schema) {
      EmittedAnswers(d, deed.i, deed.answer, deed.sampled, deed.refreshed);
    }
  }

  lemma ActCarries(d: Driving, deed: Deed, id: nat)
    requires Inv(d.ledger) && GoodDeed(deed) && id in d.ledger.batches
    ensures id in Act(d, deed).ledger.batches && Carried(d.ledger.batches[id], Act(d, deed).ledger.batches[id], deed)
  {
    match deed
    case Emit(i, cleared, answer, sampled, refreshed) => EmitCarries(d, deed, id);
    case Resolved(schema, s, margin, at) =>
      assert RowFits(d.ledger, id);
      if ResolveCheck(s, margin).None? {
        ResolveCarries(d.ledger.batches[id], schema, s, margin, at);
      }
    case Scanned(i, through) =>
  }

  // -- the log ----------------------------------------------------------------

  /** The batch a call was made for is stored under its schema, failed exactly if the call was turned away. */
  ghost predicate Told(l: Ledger, c: Call) {
    && c.id in l.batches && l.batches[c.id].schema == c.schema
    && (l.batches[c.id].state == Failed <==> TurnedAway(c.answer)) && OutlivesCall(l.batches[c.id])
  }

  /** And what was stored when `c` was made already has the batch of `earlier` closed. */
  ghost predicate ClosedBefore(earlier: Call, c: Call) {
    Told(c.stored, earlier) && !Open(c.stored.batches[earlier.id].state)
  }

  ghost predicate LogFits(d: Driving) {
    && (forall k | 0 <= k < |d.calls| :: Told(d.ledger, d.calls[k]))
    && forall j, k | 0 <= j < k < |d.calls| && d.calls[j].schema == d.calls[k].schema ::
         ClosedBefore(d.calls[j], d.calls[k])
  }

  lemma ActKeepsTold(d: Driving, deed: Deed, c: Call)
    requires Inv(d.ledger) && GoodDeed(deed) && Told(d.ledger, c)
    ensures Told(Act(d, deed).ledger, c)
  {
    ActCarries(d, deed, c.id);
  }

  /** Only an emission that passed the rechecks with no batch open makes a call: over the attempt it has just stored. */
  lemma CallMade(d: Driving, deed: Deed, c: Call)
    requires Inv(d.ledger) && Act(d, deed).calls == d.calls + [c]
    ensures deed.Emit? && deed.cleared && !HasOpen(d.ledger, deed.i.schema)
    ensures c == Call(Record(d.ledger, AttemptOf(deed.i)), d.ledger.next, deed.i.schema, deed.answer)
  {
    assert Act(d, deed).calls[|d.calls|] == c;
  }

  lemma AnsweredOutlives(b: Batch, i: Intended, answer: Reply, sampled: Option<int>, refreshed: Option<int>)
    requires FactsRead(i) && Answered(b, i, answer, sampled, refreshed)
    ensures OutlivesCall(b)
  {
    if i.mode == Cr4 {
      RevealDeadlineInOrder(i);
    }
  }

  lemma NewCallTold(d: Driving, deed: Deed, c: Call)
    requires Inv(d.ledger) && GoodDeed(deed) && Act(d, deed).calls == d.calls + [c]
    ensures Told(Act(d, deed).ledger, c)
  {
    CallMade(d, deed, c);
    EmittedAnswers(d, deed.i, deed.answer, deed.sampled, deed.refreshed);
    AnsweredOutlives(Act(d, deed).ledger.batches[c.id], deed.i, deed.answer, deed.sampled, deed.refreshed);
  }

  lemma OthersKept(l: Ledger, i: Intended, id: nat)
    requires Inv(l) && id in l.batches
    ensures id in Record(l, AttemptOf(i)).batches && Record(l, AttemptOf(i)).batches[id] == l.batches[id]
  {
    assert RowFits(l, id);
  }

  /** Every earlier call's batch for its schema was closed before it. */
  lemma NewCallAlone(d: Driving, deed: Deed, c: Call, j: nat)
    requires Inv(d.ledger) && Act(d, deed).calls == d.calls + [c]
    requires j < |d.calls| && d.calls[j].schema == c.schema && Told(d.ledger, d.calls[j])
    ensures ClosedBefore(d.calls[j], c)
  {
    CallMade(d, deed, c);
    OthersKept(d.ledger, deed.i, d.calls[j].id);
  }

  lemma ActKeepsLog(d: Driving, deed: Deed)
    requires Inv(d.ledger) && GoodDeed(deed) && LogFits(d)
    ensures LogFits(Act(d, deed))
  {
    forall k | 0 <= k < |d.calls| ensures Told(Act(d, deed).ledger, d.calls[k]) {
      ActKeepsTold(d, deed, d.calls[k]);
    }
    if Act(d, deed).calls != d.calls {
      var c := Act(d, deed).calls[|d.calls|];
      NewCallTold(d, deed, c);
      forall j | 0 <= j < |d.calls| && d.calls[j].schema == c.schema ensures ClosedBefore(d.calls[j], c) {
        NewCallAlone(d, deed, c, j);
      }
    }
  }

  lemma {:induction false} DriveFits(deeds: seq<Deed>)
    requires GoodDeeds(deeds)
    ensures LogFits(Drive(deeds))
    decreases |deeds|
  {
    if deeds != [] {
      var n := |deeds| - 1;
      DriveFits(deeds[..n]);
      ActKeepsLog(Drive(deeds[..n]), deeds[n]);
    }
  }

  // -- the main results ---------------------------------------------------------

  /** No second call for a schema goes out while the first may still be included: when it does, the earlier call's batch
      is closed in what was stored then, as failed exactly if the chain turned that vote away or it was never sent. */
  lemma NoSecondCallInFlight(deeds: seq<Deed>, j: nat, k: nat)
    requires GoodDeeds(deeds) && j < k < |Drive(deeds).calls|
    requires Drive(deeds).calls[j].schema == Drive(deeds).calls[k].schema
    ensures var earlier, stored := Drive(deeds).calls[j], Drive(deeds).calls[k].stored;
      && earlier.id in stored.batches && !Open(stored.batches[earlier.id].state)
      && (stored.batches[earlier.id].state == Failed <==> TurnedAway(earlier.answer))
  {
    DriveFits(deeds);
    assert ClosedBefore(Drive(deeds).calls[j], Drive(deeds).calls[k]);
  }

  ghost predicate ClosedAt(deeds: seq<Deed>, m: nat, id: nat) {
    && m < |deeds|
    && (var before, after := Drive(deeds[..m]).ledger, Drive(deeds[..m + 1]).ledger;
        && id in before.batches && Open(before.batches[id].state)
        && id in after.batches && Closes(deeds[m], after.batches[id]))
  }

  lemma ClosedAtStays(deeds: seq<Deed>, m: nat, id: nat)
    requires deeds != [] && ClosedAt(deeds[..|deeds| - 1], m, id)
    ensures ClosedAt(deeds, m, id)
  {
    var front := deeds[..|deeds| - 1];
    assert front[..m] == deeds[..m] && front[..m + 1] == deeds[..m + 1];
  }

  lemma ClosedLast(deeds: seq<Deed>, id: nat)
    requires GoodDeeds(deeds) && deeds != [] && id in Drive(deeds[..|deeds| - 1]).ledger.batches
    requires Open(Drive(deeds[..|deeds| - 1]).ledger.batches[id].state)
    requires OutlivesCall(Drive(deeds).ledger.batches[id])
    requires id in Drive(deeds).ledger.batches && !Open(Drive(deeds).ledger.batches[id].state)
    ensures ClosedAt(deeds, |deeds| - 1, id)
  {
    ActCarries(Drive(deeds[..|deeds| - 1]), deeds[|deeds| - 1], id);
    assert deeds[..|deeds| - 1 + 1] == deeds;
  }

  lemma LastAnswered(d: Driving, deed: Deed, c: Call)
    requires Inv(d.ledger) && GoodDeed(deed) && Act(d, deed).calls == d.calls + [c] && !TurnedAway(c.answer)
    ensures c.id in Act(d, deed).ledger.batches && Open(Act(d, deed).ledger.batches[c.id].state)
  {
    CallMade(d, deed, c);
    EmittedAnswers(d, deed.i, deed.answer, deed.sampled, deed.refreshed);
  }

  lemma CallsGrow(d: Driving, deed: Deed)
    requires Inv(d.ledger)
    ensures d.calls <= Act(d, deed).calls && |Act(d, deed).calls| <= |d.calls| + 1
  {
  }

  /** A call not turned away is closed by a resolution of its schema, on evidence that the vote is in force or at a
      block past the last one that could include it, or not at all. */
  lemma {:induction false} ClosedByResolution(deeds: seq<Deed>, k: nat)
    requires GoodDeeds(deeds) && k < |Drive(deeds).calls| && !TurnedAway(Drive(deeds).calls[k].answer)
    ensures var c, l := Drive(deeds).calls[k], Drive(deeds).ledger;
      && c.id in l.batches
      && (Open(l.batches[c.id].state) || exists m :: ClosedAt(deeds, m, c.id))
    decreases |deeds|
  {
    DriveFits(deeds);
    assert Told(Drive(deeds).ledger, Drive(deeds).calls[k]);
    if deeds != [] {
      var n := |deeds| - 1;
      var before, c := Drive(deeds[..n]), Drive(deeds).calls[k];
      CallsGrow(before, deeds[n]);
      if k == |before.calls| {
        LastAnswered(before, deeds[n], c);
      } else {
        ClosedByResolution(deeds[..n], k);
        if Open(before.ledger.batches[c.id].state) {
          if !Open(Drive(deeds).ledger.batches[c.id].state) {
            ClosedLast(deeds, c.id);
          }
        } else {
          var m :| ClosedAt(deeds[..n], m, c.id);
          ClosedAtStays(deeds, m, c.id);
        }
      }
    }
  }
}
