/** Which timelocked batches confirm: each block of their window is read once, and only that reading can count. */
module EmissionReveals {
  import opened Wrappers
  import opened EmissionStore
  import opened EmissionRuns
  import opened EmissionTransactions
  import opened EmissionDriver
  import opened EmissionScan

  /** The scan reads a window of the batch that holds block `k`. */
  ghost predicate Shows(w: World, e: DriverEvent, id: nat, k: int)
    requires Inv(w.ledger)
  {
    && e.Scanning? && Reads(w, id, e.schema, e.view)
    && var window := WindowOf(id, w.ledger.batches[id], e.view.block).value;
    window.start <= k <= window.end
  }

  /** The snapshot is of the batch's identity, vector and intent, with at most one candidate commitment, and no
      commitment of the batch was first seen after block `k`. */
  ghost predicate Saw(b: Batch, s: Snapshot, k: int) {
    && b.submission.Some? && b.period.Some?
    && IdentityMatches(b, s) && ExactVector(b, s) && ExactIntent(b, s)
    && |Candidates(b, s, FINALITY_MARGIN_BLOCKS)| <= 1
    && (b.observedBlock.Some? ==> b.observedBlock.value <= k)
  }

  ghost predicate ShowsAndSees(w: World, e: DriverEvent, id: nat, k: int)
    requires Inv(w.ledger)
  {
    && Shows(w, e, id, k)
    && Saw(w.ledger.batches[id], SnapshotOf(e.view, WindowOf(id, w.ledger.batches[id], e.view.block)), k)
  }

  // -- each block is shown once -----------------------------------------------------------

  /** The batch can show block `k` no more: it is closed, or its cursor is past `k`. */
  ghost predicate Past(w: World, id: nat, k: int) {
    && id in w.ledger.batches
    && var b := w.ledger.batches[id];
    Open(b.state) ==> b.cursor.Some? && k <= b.cursor.value
  }

  lemma ShownIsPast(w: World, e: DriverEvent, id: nat, k: int)
    requires Inv(w.ledger) && Shows(w, e, id, k)
    ensures Past(Drive(w, e), id, k)
  {
    ReadWindow(w, id, e.schema, e.view, e.at);
  }

  lemma PastShowsNot(w: World, e: DriverEvent, id: nat, k: int)
    requires Inv(w.ledger) && Past(w, id, k)
    ensures !Shows(w, e, id, k)
  {
  }

  lemma PastStays(w: World, e: DriverEvent, id: nat, k: int)
    requires Inv(w.ledger) && Past(w, id, k)
    ensures Past(Drive(w, e), id, k)
  {
    match e
    case Recording(a) => RecordFollows(w.ledger, a, id);
    case Finishing(i, t) => FinishingKeepsPast(w, i, t, id, k);
    case Scanning(schema, v, at) =>
      if Reads(w, id, schema, v) {
        ReadWindow(w, id, schema, v, at);
      } else {
        NotRead(w, id, schema, v, at);
      }
  }

  lemma FinishingKeepsPast(w: World, i: nat, t: Outcome, id: nat, k: int)
    requires Inv(w.ledger) && Past(w, id, k)
    ensures Past(Drive(w, Finishing(i, t)), id, k)
  {
  }

  /** The run `whole` goes on from `start` with `e`. */
  ghost predicate RunsOn(start: seq<DriverEvent>, e: DriverEvent, whole: seq<DriverEvent>) {
    start + [e] <= whole
  }

  lemma RunsOnFront(start: seq<DriverEvent>, e: DriverEvent, whole: seq<DriverEvent>)
    requires RunsOn(start, e, whole)
    ensures whole != []
    ensures var front := whole[..|whole| - 1];
      if |whole| == |start| + 1 then front == start && whole[|whole| - 1] == e else RunsOn(start, e, front)
  {
  }

  lemma {:induction false} AfterShown(start: seq<DriverEvent>, e: DriverEvent, whole: seq<DriverEvent>, id: nat, k: int)
    requires RunsOn(start, e, whole) && Shows(DriveAll(start), e, id, k)
    ensures Past(DriveAll(whole), id, k)
    decreases |whole|
  {
    RunsOnFront(start, e, whole);
    var front, last := whole[..|whole| - 1], whole[|whole| - 1];
    if |whole| == |start| + 1 {
      ShownIsPast(DriveAll(front), last, id, k);
    } else {
      AfterShown(start, e, front, id, k);
      PastStays(DriveAll(front), last, id, k);
    }
  }

  /** No block of a batch's window is shown to two of its resolutions, whoever scans and whatever else happens. */
  lemma ShownOnce(start: seq<DriverEvent>, e: DriverEvent, later: seq<DriverEvent>, f: DriverEvent, id: nat, k: int)
    requires RunsOn(start, e, later) && Shows(DriveAll(start), e, id, k)
    ensures !Shows(DriveAll(later), f, id, k)
  {
    AfterShown(start, e, later, id, k);
    PastShowsNot(DriveAll(later), f, id, k);
  }

  // -- what one step confirms -------------------------------------------------------------

  ghost predicate ConfirmedCr4(w: World, id: nat) {
    id in w.ledger.batches && w.ledger.batches[id].state == Confirmed && w.ledger.batches[id].mode == Some(Cr4)
  }

  /** Under this identity the view shows exactly the validator's reveals up to its block. */
  ghost predicate SeesReveals(v: ChainView, who: Evidence, revealed: set<int>) {
    who == Evidence(Some(v.chain), Some(v.netuid), Some(v.uid), Some(v.hotkey)) ==>
      forall x | x <= v.block :: x in v.revealBlocks <==> x in revealed
  }

  lemma RevealInWindow(b: Batch, v: ChainView, id: nat, x: int)
    requires b.submission.Some? && b.revealDeadline.Some? && WindowOf(id, b, v.block).Some?
    requires var w := WindowOf(id, b, v.block).value; w.start <= x <= w.end
    ensures RevealCounts(b, SnapshotOf(v, WindowOf(id, b, v.block)), Reveal(v.hotkey, v.netuid, x))
      <==> (b.observedBlock.Some? ==> b.observedBlock.value <= x)
  {
  }

  /** A batch and a view whose window of it can be resolved. */
  ghost predicate Readable(b: Batch, v: ChainView, id: nat) {
    && Constraints(b) && Open(b.state) && b.mode == Some(Cr4) && b.revealDeadline.Some?
    && WindowOf(id, b, v.block).Some?
    && ResolveCheck(SnapshotOf(v, WindowOf(id, b, v.block)), FINALITY_MARGIN_BLOCKS).None?
  }

  lemma EvidenceIsSeen(b: Batch, v: ChainView, id: nat, revealed: set<int>)
    requires Readable(b, v, id) && SeesReveals(v, b.evidence, revealed)
    requires ConfirmationEvidence(b, SnapshotOf(v, WindowOf(id, b, v.block)), FINALITY_MARGIN_BLOCKS)
    ensures var window := WindowOf(id, b, v.block).value;
      exists k :: k in revealed && window.start <= k <= window.end && Saw(b, SnapshotOf(v, Some(window)), k)
  {
    var s := SnapshotOf(v, WindowOf(id, b, v.block));
    var r :| r in s.revealEvents && RevealCounts(b, s, r);
    RevealInWindow(b, v, id, r.block);
    assert r.block in revealed && Saw(b, s, r.block);
  }

  lemma SeenIsEvidence(b: Batch, v: ChainView, id: nat, revealed: set<int>, k: int)
    requires Readable(b, v, id) && SeesReveals(v, b.evidence, revealed) && k in revealed
    requires var window := WindowOf(id, b, v.block).value;
      window.start <= k <= window.end && Saw(b, SnapshotOf(v, Some(window)), k)
    ensures ConfirmationEvidence(b, SnapshotOf(v, WindowOf(id, b, v.block)), FINALITY_MARGIN_BLOCKS)
  {
    RevealInWindow(b, v, id, k);
    assert Reveal(v.hotkey, v.netuid, k) in SnapshotOf(v, WindowOf(id, b, v.block)).revealEvents;
  }

  /** A window's reveals count if and only if some reveal in it is not before the commitment was first seen. */
  lemma WindowEvidence(b: Batch, v: ChainView, id: nat, revealed: set<int>)
    requires Readable(b, v, id) && SeesReveals(v, b.evidence, revealed)
    ensures var window := WindowOf(id, b, v.block).value;
      ConfirmationEvidence(b, SnapshotOf(v, Some(window)), FINALITY_MARGIN_BLOCKS) <==>
        exists k :: k in revealed && window.start <= k <= window.end && Saw(b, SnapshotOf(v, Some(window)), k)
  {
    var window := WindowOf(id, b, v.block).value;
    if ConfirmationEvidence(b, SnapshotOf(v, Some(window)), FINALITY_MARGIN_BLOCKS) {
      EvidenceIsSeen(b, v, id, revealed);
    } else if k :| k in revealed && window.start <= k <= window.end && Saw(b, SnapshotOf(v, Some(window)), k) {
      SeenIsEvidence(b, v, id, revealed, k);
    }
  }

  lemma WindowConfirms(b: Batch, id: nat, schema: string, v: ChainView, at: string, revealed: set<int>)
    requires Constraints(b) && Scannable(b, schema) && WindowOf(id, b, v.block).Some?
    requires SeesReveals(v, b.evidence, revealed)
    requires ResolveCheck(SnapshotOf(v, WindowOf(id, b, v.block)), FINALITY_MARGIN_BLOCKS).None?
    ensures var window := WindowOf(id, b, v.block);
      ResolveOne(b, schema, SnapshotOf(v, window), FINALITY_MARGIN_BLOCKS, at).state == Confirmed <==>
        exists k :: k in revealed && window.value.start <= k <= window.value.end && Saw(b, SnapshotOf(v, window), k)
  {
    ConfirmedIffEvidence(b, schema, SnapshotOf(v, WindowOf(id, b, v.block)), FINALITY_MARGIN_BLOCKS, at);
    WindowEvidence(b, v, id, revealed);
  }

  lemma ShownInWindow(w: World, e: DriverEvent, id: nat, k: int)
    requires Inv(w.ledger) && e.Scanning? && Reads(w, id, e.schema, e.view)
    ensures var window := WindowOf(id, w.ledger.batches[id], e.view.block);
      ShowsAndSees(w, e, id, k) <==>
        window.value.start <= k <= window.value.end && Saw(w.ledger.batches[id], SnapshotOf(e.view, window), k)
  {
  }

  lemma ReadState(w: World, id: nat, schema: string, v: ChainView, at: string)
    requires Inv(w.ledger) && Reads(w, id, schema, v)
    ensures var s := SnapshotOf(v, WindowOf(id, w.ledger.batches[id], v.block));
      ConfirmedCr4(Iterate(w, schema, v, at), id) <==>
        ResolveOne(w.ledger.batches[id], schema, s, FINALITY_MARGIN_BLOCKS, at).state == Confirmed
  {
    ReadWindow(w, id, schema, v, at);
    StateIsDecided(w, id, schema, v, at);
  }

  /** A read window confirms its batch if and only if it holds a reveal and sees all the rest. */
  lemma ReadConfirms(w: World, e: DriverEvent, id: nat, revealed: set<int>)
    requires Inv(w.ledger) && e.Scanning? && Reads(w, id, e.schema, e.view)
    requires SeesReveals(e.view, w.ledger.batches[id].evidence, revealed)
    ensures ConfirmedCr4(Drive(w, e), id) <==> exists k :: k in revealed && ShowsAndSees(w, e, id, k)
  {
    ReadState(w, id, e.schema, e.view, e.at);
    WindowConfirms(w.ledger.batches[id], id, e.schema, e.view, e.at, revealed);
    forall k ensures ShowsAndSees(w, e, id, k) <==>
      var window := WindowOf(id, w.ledger.batches[id], e.view.block);
      window.value.start <= k <= window.value.end && Saw(w.ledger.batches[id], SnapshotOf(e.view, window), k)
    {
      ShownInWindow(w, e, id, k);
    }
  }

  lemma NoWindowNoReveal(b: Batch, schema: string, v: ChainView, at: string)
    requires Constraints(b) && Due(b, schema) && b.mode == Some(Cr4)
    requires ResolveCheck(SnapshotOf(v, None), FINALITY_MARGIN_BLOCKS).None?
    ensures ResolveOne(b, schema, SnapshotOf(v, None), FINALITY_MARGIN_BLOCKS, at).state != Confirmed
  {
    ConfirmedIffEvidence(b, schema, SnapshotOf(v, None), FINALITY_MARGIN_BLOCKS, at);
  }

  lemma NoWindow(w: World, e: DriverEvent, id: nat)
    requires Inv(w.ledger) && e.Scanning? && !Reads(w, id, e.schema, e.view) && id in w.ledger.batches
    requires Due(w.ledger.batches[id], e.schema) && w.ledger.batches[id].mode == Some(Cr4)
    ensures var window := ScanWindow(w.ledger, e.schema, e.view.block);
      window.None? || ResolveCheck(SnapshotOf(e.view, window), FINALITY_MARGIN_BLOCKS).Some?
  {
    assert RowFits(w.ledger, id);
    if ScanWindow(w.ledger, e.schema, e.view.block).Some? {
      var other := WindowIsOf(w.ledger, e.schema, e.view.block);
      assert Clash(w.ledger, other, id);
    }
  }

  /** A batch no window is read for is not confirmed by the scan, unless it was sent directly. */
  lemma UnreadConfirmsNot(w: World, e: DriverEvent, id: nat)
    requires Inv(w.ledger) && e.Scanning? && !Reads(w, id, e.schema, e.view) && !ConfirmedCr4(w, id)
    ensures !ConfirmedCr4(Drive(w, e), id)
  {
    if id in w.ledger.batches {
      var b, window := w.ledger.batches[id], ScanWindow(w.ledger, e.schema, e.view.block);
      assert RowFits(w.ledger, id);
      NotRead(w, id, e.schema, e.view, e.at);
      StateIsResolved(w, id, e.schema, e.view, e.at);
      if Due(b, e.schema) && b.mode == Some(Cr4) {
        NoWindow(w, e, id);
        if ResolveCheck(SnapshotOf(e.view, window), FINALITY_MARGIN_BLOCKS).None? {
          NoWindowNoReveal(b, e.schema, e.view, e.at);
        }
      }
    }
  }

  lemma StoreConfirmsNot(w: World, e: DriverEvent, id: nat)
    requires Inv(w.ledger) && !e.Scanning? && !ConfirmedCr4(w, id)
    ensures !ConfirmedCr4(Drive(w, e), id)
  {
    if ConfirmedCr4(Drive(w, e), id) {
      match e
      case Recording(a) => NotConfirmedBefore(w, RecordEvent(a), id);
      case Finishing(i, t) => NotConfirmedBefore(w, TransitionEvent(i, t), id);
    }
  }

  lemma NotConfirmedBefore(w: World, e: Event, id: nat)
    requires Inv(w.ledger) && !e.ResolveEvent? && id in Step(w.ledger, e).batches
    requires Step(w.ledger, e).batches[id].state == Confirmed
    ensures id in w.ledger.batches && w.ledger.batches[id] == Step(w.ledger, e).batches[id]
  {
    if id !in w.ledger.batches || w.ledger.batches[id].state != Confirmed {
      StepConfirms(w.ledger, e, id);
    } else {
      StepFreezesClosed(w.ledger, e, id);
    }
  }

  lemma ConfirmedStays(w: World, e: DriverEvent, id: nat)
    requires Inv(w.ledger) && ConfirmedCr4(w, id)
    ensures ConfirmedCr4(Drive(w, e), id)
  {
    match e
    case Recording(a) => StepFreezesClosed(w.ledger, RecordEvent(a), id);
    case Finishing(i, t) => StepFreezesClosed(w.ledger, TransitionEvent(i, t), id);
    case Scanning(schema, v, at) => IterateKeepsClosed(w, id, schema, v, at);
  }

  // -- over a whole run -------------------------------------------------------------------

  ghost predicate AllSee(events: seq<DriverEvent>, who: Evidence, revealed: set<int>) {
    forall i | 0 <= i < |events| && events[i].Scanning? :: SeesReveals(events[i].view, who, revealed)
  }

  /** Some resolution of the run was shown a reveal and saw all the rest. */
  ghost predicate EverSeen(events: seq<DriverEvent>, id: nat, revealed: set<int>)
    decreases |events|
  {
    events != [] &&
    var front, last := events[..|events| - 1], events[|events| - 1];
    EverSeen(front, id, revealed) || exists k :: k in revealed && ShowsAndSees(DriveAll(front), last, id, k)
  }

  lemma StepConfirmsExactly(w: World, e: DriverEvent, id: nat, revealed: set<int>)
    requires Inv(w.ledger) && !ConfirmedCr4(w, id)
    requires e.Scanning? && id in w.ledger.batches ==> SeesReveals(e.view, w.ledger.batches[id].evidence, revealed)
    ensures ConfirmedCr4(Drive(w, e), id) <==> exists k :: k in revealed && ShowsAndSees(w, e, id, k)
  {
    if e.Scanning? && Reads(w, id, e.schema, e.view) {
      ReadConfirms(w, e, id, revealed);
    } else if e.Scanning? {
      UnreadConfirmsNot(w, e, id);
    } else {
      StoreConfirmsNot(w, e, id);
    }
  }

  /** After any run whose views show the validator's reveals: a timelocked batch is confirmed if and only if a
      resolution whose window held a reveal saw its identity, vector and intent, at most one candidate, and no
      commitment first seen later than that reveal. */
  lemma {:induction false} ConfirmedIffSeen(events: seq<DriverEvent>, id: nat, who: Evidence, revealed: set<int>)
    requires AllSee(events, who, revealed)
    requires id in DriveAll(events).ledger.batches ==> DriveAll(events).ledger.batches[id].evidence == who
    ensures ConfirmedCr4(DriveAll(events), id) <==> EverSeen(events, id, revealed)
    decreases |events|
  {
    if events != [] {
      var front, last := events[..|events| - 1], events[|events| - 1];
      if id in DriveAll(front).ledger.batches {
        StepKeepsEvidence(DriveAll(front), last, id);
      }
      ConfirmedIffSeen(front, id, who, revealed);
      if ConfirmedCr4(DriveAll(front), id) {
        ConfirmedStays(DriveAll(front), last, id);
      } else {
        StepConfirmsExactly(DriveAll(front), last, id, revealed);
      }
    }
  }

  lemma OnlyThatBlock(w: World, e: DriverEvent, id: nat, revealed: set<int>, k: int)
    requires Inv(w.ledger) && id in w.ledger.batches && w.ledger.batches[id].submission.Some? && k in revealed
    requires forall x | x in revealed && x >= w.ledger.batches[id].submission.value :: x == k
    ensures (exists x :: x in revealed && ShowsAndSees(w, e, id, x)) <==> ShowsAndSees(w, e, id, k)
  {
    if x :| x in revealed && ShowsAndSees(w, e, id, x) {
      assert x >= w.ledger.batches[id].submission.value;
    }
  }

  /** The batch has this identity, and no reveal since its submission but the one in block `k`. */
  ghost predicate OneReveal(b: Batch, who: Evidence, revealed: set<int>, k: int) {
    && b.evidence == who && b.submission.Some? && k in revealed
    && forall x | x in revealed && x >= b.submission.value :: x == k
  }

  lemma DecidedNow(w: World, e: DriverEvent, id: nat, who: Evidence, revealed: set<int>, k: int)
    requires Inv(w.ledger) && Shows(w, e, id, k) && OneReveal(w.ledger.batches[id], who, revealed, k)
    requires SeesReveals(e.view, who, revealed)
    ensures ConfirmedCr4(Drive(w, e), id) <==> ShowsAndSees(w, e, id, k)
  {
    StepConfirmsExactly(w, e, id, revealed);
    OnlyThatBlock(w, e, id, revealed, k);
  }

  lemma DecidedStays(w: World, e: DriverEvent, id: nat, who: Evidence, revealed: set<int>, k: int)
    requires Inv(w.ledger) && Past(w, id, k) && OneReveal(w.ledger.batches[id], who, revealed, k)
    requires e.Scanning? ==> SeesReveals(e.view, who, revealed)
    ensures ConfirmedCr4(Drive(w, e), id) <==> ConfirmedCr4(w, id)
  {
    if ConfirmedCr4(w, id) {
      ConfirmedStays(w, e, id);
    } else {
      StepConfirmsExactly(w, e, id, revealed);
      OnlyThatBlock(w, e, id, revealed, k);
      PastShowsNot(w, e, id, k);
    }
  }

  lemma {:induction false} OneRevealAfter(start: seq<DriverEvent>, e: DriverEvent, whole: seq<DriverEvent>, id: nat,
                                          who: Evidence, revealed: set<int>, k: int)
    requires RunsOn(start, e, whole) && id in DriveAll(start).ledger.batches
    requires OneReveal(DriveAll(start).ledger.batches[id], who, revealed, k)
    ensures id in DriveAll(whole).ledger.batches && OneReveal(DriveAll(whole).ledger.batches[id], who, revealed, k)
    decreases |whole|
  {
    RunsOnFront(start, e, whole);
    var front, last := whole[..|whole| - 1], whole[|whole| - 1];
    if |whole| > |start| + 1 {
      OneRevealAfter(start, e, front, id, who, revealed, k);
    }
    StepKeepsEvidence(DriveAll(front), last, id);
  }

  /** The one reading of block `k`, by event `e` after `start`, decides it: a batch whose only reveal since its
      submission is in that block is confirmed at the end of any run that goes on so, if and only if that resolution
      saw its identity, vector and intent, at most one candidate, and no commitment first seen after `k`. */
  lemma {:induction false} OneReadingDecides(start: seq<DriverEvent>, e: DriverEvent, whole: seq<DriverEvent>, id: nat,
                                             who: Evidence, revealed: set<int>, k: int)
    requires RunsOn(start, e, whole) && Shows(DriveAll(start), e, id, k) && AllSee(whole, who, revealed)
    requires OneReveal(DriveAll(start).ledger.batches[id], who, revealed, k)
    ensures ConfirmedCr4(DriveAll(whole), id) <==> ShowsAndSees(DriveAll(start), e, id, k)
    decreases |whole|
  {
    RunsOnFront(start, e, whole);
    var front, last := whole[..|whole| - 1], whole[|whole| - 1];
    if |whole| == |start| + 1 {
      DecidedNow(DriveAll(front), last, id, who, revealed, k);
    } else {
      OneReadingDecides(start, e, front, id, who, revealed, k);
      AfterShown(start, e, front, id, k);
      OneRevealAfter(start, e, front, id, who, revealed, k);
      DecidedStays(DriveAll(front), last, id, who, revealed, k);
    }
  }

  // -- a reveal read under another identity --------------------------------------------------

  /** A timelocked attempt of hotkey "ours" submitted at block 10, to be revealed by 160. */
  const OURS := Intended("schema", "chain", 0, 0, "ours", 10, 10, Cr4, Some(160), [])

  function OurBatch(cursor: Option<int>): Batch {
    BatchOf(AttemptOf(OURS)).(cursor := cursor)
  }

  /** A view at `block` of a chain on which `hotkey` revealed in those blocks. */
  function ViewBy(hotkey: Hotkey, uid: int, block: int, revealBlocks: seq<int>): ChainView {
    ChainView("chain", 0, uid, hotkey, block, 0, [], [], [], revealBlocks)
  }

  /** Our reveal is in block 155, which no window has read yet. */
  ghost predicate NotReadYet(w: World, cursor: Option<int>) {
    && Inv(w.ledger) && RowFits(w.ledger, 0) && 0 in w.ledger.batches && w.ledger.batches[0] == OurBatch(cursor)
    && 155 !in ScannedOf(w, 0) && (cursor.Some? ==> 10 <= cursor.value)
  }

  lemma KeptWindow(w: World, id: nat, schema: string, v: ChainView, at: string)
    requires Inv(w.ledger) && Reads(w, id, schema, v)
    requires Decide(w.ledger.batches[id], SnapshotOf(v, WindowOf(id, w.ledger.batches[id], v.block)),
                    FINALITY_MARGIN_BLOCKS) == Keep
    ensures var b := w.ledger.batches[id];
      Iterate(w, schema, v, at).ledger.batches[id]
          == b.(cursor := Later(b.cursor, Some(WindowOf(id, b, v.block).value.end)))
  {
    TheWindow(w.ledger, schema, id, v.block);
  }

  lemma OurScanKeeps(b: Batch, v: ChainView, w: Window)
    requires b == OurBatch(b.cursor) && Constraints(b) && v == ViewBy("ours", 0, 160, [155]) && w.end < 155
    requires !w.complete
    ensures ResolveCheck(SnapshotOf(v, Some(w)), FINALITY_MARGIN_BLOCKS).None?
    ensures Decide(b, SnapshotOf(v, Some(w)), FINALITY_MARGIN_BLOCKS) == Keep
  {
  }

  lemma OursReads(w: World, cursor: Option<int>, at: string)
    requires NotReadYet(w, cursor) && (cursor.Some? ==> cursor.value <= 105)
    ensures NotReadYet(Iterate(w, "schema", ViewBy("ours", 0, 160, [155]), at),
                       Some(if cursor.Some? then cursor.value + 32 else 41))
  {
    var v := ViewBy("ours", 0, 160, [155]);
    var window := WindowOf(0, w.ledger.batches[0], v.block);
    OurScanKeeps(w.ledger.batches[0], v, window.value);
    ReadWindow(w, 0, "schema", v, at);
    KeptWindow(w, 0, "schema", v, at);
    assert RowFits(Iterate(w, "schema", v, at).ledger, 0);
  }

  /** A view of another identity, whatever it reveals. */
  ghost predicate AnotherView(v: ChainView) {
    v == ViewBy(v.hotkey, v.uid, 160, v.revealBlocks) && (v.hotkey != "ours" || v.uid != 0)
  }

  lemma AnotherKeeps(b: Batch, v: ChainView)
    requires b == OurBatch(Some(137)) && Constraints(b) && AnotherView(v)
    ensures var s := SnapshotOf(v, WindowOf(0, b, v.block));
      ResolveCheck(s, FINALITY_MARGIN_BLOCKS).None? && Decide(b, s, FINALITY_MARGIN_BLOCKS) == Keep
  {
    var found := RevealsBetween(v, v.revealBlocks, 138, 160);
    forall i | 0 <= i < |found| ensures found[i].block <= v.block {
      assert found[i] in found;
    }
  }

  lemma AnotherReads(w: World, v: ChainView, at: string)
    requires NotReadYet(w, Some(137)) && AnotherView(v)
    ensures NotReadYet(Iterate(w, "schema", v, at), Some(160))
  {
    AnotherKeeps(w.ledger.batches[0], v);
    ReadWindow(w, 0, "schema", v, at);
    KeptWindow(w, 0, "schema", v, at);
    assert RowFits(Iterate(w, "schema", v, at).ledger, 0);
  }

  lemma UnconfirmedUnread(w: World, at: string)
    requires NotReadYet(w, Some(160))
    ensures var after := Iterate(w, "schema", ViewBy("ours", 0, 161, [155]), at);
      after.ledger.batches[0].state == Unconfirmed && 155 !in ScannedOf(after, 0)
  {
    var v := ViewBy("ours", 0, 161, [155]);
    NotRead(w, 0, "schema", v, at);
    StateIsDecided(w, 0, "schema", v, at);
    Cr4UnconfirmedExactly(OurBatch(Some(160)), "schema", SnapshotOf(v, None), FINALITY_MARGIN_BLOCKS, at);
  }

  ghost function LastSnapshot(): Snapshot {
    SnapshotOf(ViewBy("ours", 0, 160, [155]), WindowOf(0, OurBatch(Some(137)), 160))
  }

  lemma OurRevealConfirms()
    requires Constraints(OurBatch(Some(137)))
    ensures Decide(OurBatch(Some(137)), LastSnapshot(), FINALITY_MARGIN_BLOCKS) == Confirm
  {
    var b, s := OurBatch(Some(137)), LastSnapshot();
    assert Reveal("ours", 0, 155) in s.revealEvents;
    var i :| 0 <= i < |s.revealEvents| && s.revealEvents[i] == Reveal("ours", 0, 155);
    assert RevealCounts(b, s, s.revealEvents[i]);
    assert TargetsOf(b.rows) == map[];
  }

  lemma ConfirmedWhenRead(w: World, at: string)
    requires NotReadYet(w, Some(137))
    ensures Iterate(w, "schema", ViewBy("ours", 0, 160, [155]), at).ledger.batches[0].state == Confirmed
  {
    assert ResolveCheck(LastSnapshot(), FINALITY_MARGIN_BLOCKS).None?;
    OurRevealConfirms();
    StateIsDecided(w, 0, "schema", ViewBy("ours", 0, 160, [155]), at);
  }

  function OurScan(at: string): DriverEvent {
    Scanning("schema", ViewBy("ours", 0, 160, [155]), at)
  }

  lemma DriveMore(events: seq<DriverEvent>, e: DriverEvent)
    ensures DriveAll(events + [e]) == Drive(DriveAll(events), e)
  {
    assert (events + [e])[..|events|] == events;
  }

  lemma OneOurWindow(events: seq<DriverEvent>, cursor: Option<int>, at: string)
    requires NotReadYet(DriveAll(events), cursor) && (cursor.Some? ==> cursor.value <= 105)
    ensures NotReadYet(DriveAll(events + [OurScan(at)]), Some(if cursor.Some? then cursor.value + 32 else 41))
  {
    DriveMore(events, OurScan(at));
    OursReads(DriveAll(events), cursor, at);
  }

  /** The attempt recorded, and four windows read by its own hotkey, through block 137. */
  function FourWindows(at: string): seq<DriverEvent> {
    [Recording(AttemptOf(OURS))] + [OurScan(at)] + [OurScan(at)] + [OurScan(at)] + [OurScan(at)]
  }

  lemma AfterRecording()
    ensures NotReadYet(DriveAll([Recording(AttemptOf(OURS))]), None)
  {
    var events := [Recording(AttemptOf(OURS))];
    assert events[..0] == [] && events[0] == Recording(AttemptOf(OURS));
    assert DriveAll([]) == World(EMPTY, map[]);
    assert RowFits(DriveAll(events).ledger, 0);
  }

  lemma AfterFourWindows(at: string)
    ensures NotReadYet(DriveAll(FourWindows(at)), Some(137))
  {
    var none := [Recording(AttemptOf(OURS))];
    AfterRecording();
    OneOurWindow(none, None, at);
    var one := none + [OurScan(at)];
    assert NotReadYet(DriveAll(one), Some(41));
    OneOurWindow(one, Some(41), at);
    var two := one + [OurScan(at)];
    assert NotReadYet(DriveAll(two), Some(73));
    OneOurWindow(two, Some(73), at);
    var three := two + [OurScan(at)];
    assert NotReadYet(DriveAll(three), Some(105));
    OneOurWindow(three, Some(105), at);
  }

  /** So after four windows of our own, any other identity that reads the last one, with our reveal in block 155, loses
      it, even our own hotkey at another UID: the batch ends unconfirmed, though read under our own identity that window
      confirms it. */
  lemma AnotherIdentityLosesTheReveal(v: ChainView, at: string)
    requires AnotherView(v)
    ensures var another, later := Scanning("schema", v, at), Scanning("schema", ViewBy("ours", 0, 161, [155]), at);
      var lost, straight := DriveAll(FourWindows(at) + [another] + [later]), DriveAll(FourWindows(at) + [OurScan(at)]);
      && 0 in lost.ledger.batches && lost.ledger.batches[0].state == Unconfirmed && 155 !in ScannedOf(lost, 0)
      && 0 in straight.ledger.batches && straight.ledger.batches[0].state == Confirmed
  {
    var another, later := Scanning("schema", v, at), Scanning("schema", ViewBy("ours", 0, 161, [155]), at);
    var four := FourWindows(at);
    AfterFourWindows(at);
    DriveMore(four, another);
    DriveMore(four + [another], later);
    DriveMore(four, OurScan(at));
    AnotherReads(DriveAll(four), v, at);
    UnconfirmedUnread(DriveAll(four + [another]), at);
    ConfirmedWhenRead(DriveAll(four), at);
  }
}
