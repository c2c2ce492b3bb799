/** The bounded scan for a timelocked batch's reveal, window by window. */
module EmissionScan {
  import opened Wrappers
  import opened EmissionStore
  import opened EmissionRuns
  import opened EmissionTransactions
  import opened EmissionDriver

  /** The finalized chain as one pass reads it; `revealBlocks` are the blocks in which this validator revealed. */
  datatype ChainView = ChainView(chain: string, netuid: int, uid: int, hotkey: Hotkey, block: int, lastUpdate: int,
                                 weights: seq<(int, int)>, commitments: seq<Commit>, hotkeys: seq<(int, Hotkey)>,
                                 revealBlocks: seq<int>)

  function RevealsBetween(v: ChainView, blocks: seq<int>, start: int, end: int): (r: seq<Reveal>)
    ensures forall x :: x in r <==>
      x == Reveal(v.hotkey, v.netuid, x.block) && x.block in blocks && start <= x.block <= end
  {
    if blocks == [] then [] else
      (if start <= blocks[0] <= end then [Reveal(v.hotkey, v.netuid, blocks[0])] else [])
      + RevealsBetween(v, blocks[1..], start, end)
  }

  function SnapshotOf(v: ChainView, w: Option<Window>): Snapshot {
    Snapshot(v.chain, v.netuid, v.uid, v.hotkey, v.block, v.lastUpdate, v.weights, v.commitments,
             if w.Some? then RevealsBetween(v, v.revealBlocks, w.value.start, w.value.end) else [],
             v.hotkeys, w.None? || w.value.complete)
  }

  /** The ledger, with the blocks whose reveals some resolution of each batch was shown under its own identity. */
  datatype World = World(ledger: Ledger, scanned: map<nat, set<int>>)

  ghost function ScannedOf(w: World, id: nat): set<int> {
    if id in w.scanned then w.scanned[id] else {}
  }

  ghost function Blocks(start: int, end: int): (r: set<int>)
    ensures forall k :: k in r <==> start <= k <= end
    decreases end - start
  {
    if start > end then {} else Blocks(start, end - 1) + {end}
  }

  ghost predicate AllScanned(scanned: set<int>, first: int, last: int) {
    forall k: int :: first <= k <= last ==> k in scanned
  }

  ghost predicate Closed(before: Ledger, after: Ledger) {
    Became(before.batches, after.batches, Confirmed) != {} || Became(before.batches, after.batches, Unconfirmed) != {}
  }

  ghost function Scan(w: World, window: Window, s: Snapshot): map<nat, set<int>> {
    if window.batch in w.ledger.batches && IdentityMatches(w.ledger.batches[window.batch], s)
    then w.scanned[window.batch := ScannedOf(w, window.batch) + Blocks(window.start, window.end)]
    else w.scanned
  }

  ghost function IterateWith(w: World, window: Option<Window>, schema: string, s: Snapshot, at: string): (r: World)
    requires Inv(w.ledger)
    ensures Inv(r.ledger) && r.ledger.batches.Keys == w.ledger.batches.Keys
  {
    ResolveKeepsInv(w.ledger, schema, s, FINALITY_MARGIN_BLOCKS, at);
    var resolved := Resolve(w.ledger, schema, s, FINALITY_MARGIN_BLOCKS, at);
    if window.None? || ResolveCheck(s, FINALITY_MARGIN_BLOCKS).Some? then World(resolved, w.scanned)
    else
      AdvanceKeepsInv(resolved, window.value.batch, window.value.end);
      World(Advance(resolved, window.value.batch, window.value.end), Scan(w, window.value, s))
  }

  /** One window: read its reveals, resolve, then move the cursor. */
  ghost function Iterate(w: World, schema: string, v: ChainView, at: string): (r: World)
    requires Inv(w.ledger)
    ensures Inv(r.ledger) && r.ledger.batches.Keys == w.ledger.batches.Keys
  {
    var window := ScanWindow(w.ledger, schema, v.block);
    IterateWith(w, window, schema, SnapshotOf(v, window), at)
  }

  /** A pass goes on after a window unless it closed a batch or was refused its snapshot. */
  ghost predicate GoesOnWith(w: World, window: Option<Window>, schema: string, s: Snapshot, at: string)
    requires Inv(w.ledger)
  {
    && window.Some? && ResolveCheck(s, FINALITY_MARGIN_BLOCKS).None?
    && !Closed(w.ledger, Resolve(w.ledger, schema, s, FINALITY_MARGIN_BLOCKS, at))
  }

  ghost predicate GoesOn(w: World, schema: string, v: ChainView, at: string)
    requires Inv(w.ledger)
  {
    var window := ScanWindow(w.ledger, schema, v.block);
    GoesOnWith(w, window, schema, SnapshotOf(v, window), at)
  }

  /** What one window leaves behind, and whether the pass goes on. */
  datatype Turn = Turn(world: World, goOn: bool)

  ghost function OneWindow(schema: string, v: ChainView, at: string): World -> Turn {
    (w: World) => if Inv(w.ledger) then Turn(Iterate(w, schema, v, at), GoesOn(w, schema, v, at)) else Turn(w, false)
  }

  ghost function Repeat(turn: World -> Turn, w: World, budget: nat): World
    decreases budget
  {
    if budget == 0 then w
    else if turn(w).goOn then Repeat(turn, turn(w).world, budget - 1)
    else turn(w).world
  }

  /** One pass: windows until one ends it, or the budget is used up. */
  ghost function Pass(w: World, schema: string, v: ChainView, at: string, budget: nat): World {
    Repeat(OneWindow(schema, v, at), w, budget)
  }

  ghost predicate Turns(turn: World -> Turn, schema: string, v: ChainView, at: string) {
    forall w: World {:trigger Iterate(w, schema, v, at)} ::
      Inv(w.ledger) ==> turn(w) == Turn(Iterate(w, schema, v, at), GoesOn(w, schema, v, at))
  }

  lemma {:induction false} RepeatKeeps(turn: World -> Turn, w: World, budget: nat, p: World -> bool)
    requires p(w) && forall x | p(x) :: p(turn(x).world)
    ensures p(Repeat(turn, w, budget))
    decreases budget
  {
    if budget > 0 && turn(w).goOn {
      RepeatKeeps(turn, turn(w).world, budget - 1, p);
    } else {
      assert p(turn(w).world);
    }
  }

  function ScanBudget(epochLength: nat): nat {
    (epochLength + 1 + CR4_REVEAL_SCAN_BATCH_BLOCKS - 1) / CR4_REVEAL_SCAN_BATCH_BLOCKS + 1
  }

  class Confirmer {
    const storage: Storage
    ghost var scanned: map<nat, set<int>>

    constructor (s: Storage)
      ensures storage == s && scanned == map[]
    {
      storage, scanned := s, map[];
    }

    ghost function Now(): World
      reads this, storage
    {
      World(storage.Contents(), scanned)
    }

    method ResolveWeightConfirmations(schema: string, v: ChainView, at: string, epochLength: nat)
      requires storage.Valid()
      modifies this, storage
      ensures storage.Valid() && Now() == Pass(old(Now()), schema, v, at, ScanBudget(epochLength))
    {
      ScanWindows(schema, v, at, ScanBudget(epochLength), OneWindow(schema, v, at));
    }

    method ScanWindows(schema: string, v: ChainView, at: string, budget: nat, ghost turn: World -> Turn)
      requires storage.Valid() && Turns(turn, schema, v, at)
      modifies this, storage
      ensures storage.Valid() && Now() == Repeat(turn, old(Now()), budget)
    {
      for n := 0 to budget
        invariant storage.Valid() && Repeat(turn, Now(), budget - n) == Repeat(turn, old(Now()), budget)
      {
        var goOn := ScanOneWindow(schema, v, at, turn);
        if !goOn {
          return;
        }
      }
    }

    method ScanOneWindow(schema: string, v: ChainView, at: string, ghost turn: World -> Turn) returns (goOn: bool)
      requires storage.Valid() && Turns(turn, schema, v, at)
      modifies this, storage
      ensures storage.Valid() && Turn(Now(), goOn) == turn(old(Now()))
    {
      ghost var before := Now();
      var window := storage.Cr4RevealScanWindow(schema, v.block);
      var resolution := storage.ResolveWeightEmissionConfirmations(schema, SnapshotOf(v, window),
                                                                   FINALITY_MARGIN_BLOCKS, at);
      if resolution.Err? || window.None? {
        assert Now() == Iterate(before, schema, v, at);
        return false;
      }
      var id := window.value.batch;
      storage.AdvanceCr4RevealScanCursor(id, window.value.end);
      scanned := Scan(before, window.value, SnapshotOf(v, window));
      goOn := resolution.value.confirmed == 0 && resolution.value.unconfirmed == 0;
      assert Now() == Iterate(before, schema, v, at);
    }
  }

  // -- what one window does to one batch -------------------------------------------------

  /** A window starts right after the cursor, or at the submission, and spans one to thirty-two blocks. */
  lemma WindowContiguous(id: nat, b: Batch, finalized: int)
    requires b.submission.Some? && b.revealDeadline.Some? && WindowOf(id, b, finalized).Some?
    requires b.cursor.Some? ==> b.cursor.value >= b.submission.value - 1
    ensures var w := WindowOf(id, b, finalized).value;
      && w.start == (if b.cursor.Some? then b.cursor.value + 1 else b.submission.value)
      && w.start <= w.end < w.start + CR4_REVEAL_SCAN_BATCH_BLOCKS
      && w.end <= finalized && w.end <= b.revealDeadline.value
      && (w.complete <==> w.end == b.revealDeadline.value)
  {
  }

  /** The row keeps its identity, submission and deadlines, and is not opened again. */
  predicate SameRow(b: Batch, r: Batch) {
    && r.submission == b.submission && r.revealDeadline == b.revealDeadline && r.mode == b.mode && r.schema == b.schema
    && r.deadline == b.deadline && r.evidence == b.evidence && (Open(r.state) ==> Open(b.state))
  }

  lemma ResolveKeepsScan(b: Batch, schema: string, s: Snapshot, margin: int, at: string)
    requires Constraints(b)
    ensures var r := ResolveOne(b, schema, s, margin, at);
      SameRow(b, r) && r.cursor == b.cursor
  {
    if Due(b, schema) {
      match Decide(b, s, margin)
      case Keep =>
      case Confirm =>
      case Unconfirm =>
      case Observe(_, _, _, _) =>
    }
  }

  lemma ResolvedRowKeepsScan(l: Ledger, id: nat, schema: string, s: Snapshot, margin: int, at: string)
    requires Inv(l) && id in l.batches
    ensures var r := Resolve(l, schema, s, margin, at);
      id in r.batches && SameRow(l.batches[id], r.batches[id]) && r.batches[id].cursor == l.batches[id].cursor
  {
    assert RowFits(l, id);
    ResolveKeepsScan(l.batches[id], schema, s, margin, at);
  }

  lemma StateIsResolved(w: World, id: nat, schema: string, v: ChainView, at: string)
    requires Inv(w.ledger) && id in w.ledger.batches
    ensures var s := SnapshotOf(v, ScanWindow(w.ledger, schema, v.block));
      Iterate(w, schema, v, at).ledger.batches[id].state
          == Resolve(w.ledger, schema, s, FINALITY_MARGIN_BLOCKS, at).batches[id].state
  {
  }

  lemma StateIsDecided(w: World, id: nat, schema: string, v: ChainView, at: string)
    requires Inv(w.ledger) && id in w.ledger.batches && Scannable(w.ledger.batches[id], schema) && RowFits(w.ledger, id)
    ensures var s := SnapshotOf(v, WindowOf(id, w.ledger.batches[id], v.block));
      Iterate(w, schema, v, at).ledger.batches[id].state ==
        if ResolveCheck(s, FINALITY_MARGIN_BLOCKS).Some? then w.ledger.batches[id].state
        else ResolveOne(w.ledger.batches[id], schema, s, FINALITY_MARGIN_BLOCKS, at).state
  {
    TheWindow(w.ledger, schema, id, v.block);
    StateIsResolved(w, id, schema, v, at);
  }

  /** The window read for batch `id` is this one, and its snapshot is taken. */
  ghost predicate Reads(w: World, id: nat, schema: string, v: ChainView)
    requires Inv(w.ledger)
  {
    && id in w.ledger.batches && Scannable(w.ledger.batches[id], schema) && RowFits(w.ledger, id)
    && var window := WindowOf(id, w.ledger.batches[id], v.block);
    window.Some? && ResolveCheck(SnapshotOf(v, window), FINALITY_MARGIN_BLOCKS).None?
  }

  lemma WindowIsOf(l: Ledger, schema: string, finalized: int) returns (id: nat)
    requires Inv(l) && ScanWindow(l, schema, finalized).Some?
    ensures id in l.batches && Scannable(l.batches[id], schema) && RowFits(l, id)
    ensures ScanWindow(l, schema, finalized) == WindowOf(id, l.batches[id], finalized)
  {
    id := Chosen(l, schema);
    assert RowFits(l, id);
  }

  /** Nothing but the batch a window is of has its cursor moved or anything scanned for it. */
  lemma OnlyItsBatch(w: World, id: nat, window: Option<Window>, schema: string, s: Snapshot, at: string)
    requires Inv(w.ledger) && id in w.ledger.batches
    requires window.None? || window.value.batch != id || ResolveCheck(s, FINALITY_MARGIN_BLOCKS).Some?
    ensures var after := IterateWith(w, window, schema, s, at);
      && SameRow(w.ledger.batches[id], after.ledger.batches[id])
      && after.ledger.batches[id].cursor == w.ledger.batches[id].cursor && ScannedOf(after, id) == ScannedOf(w, id)
  {
    ResolvedRowKeepsScan(w.ledger, id, schema, s, FINALITY_MARGIN_BLOCKS, at);
  }

  /** A batch that no window is read for keeps its cursor and what was scanned for it. */
  lemma NotRead(w: World, id: nat, schema: string, v: ChainView, at: string)
    requires Inv(w.ledger) && id in w.ledger.batches && !Reads(w, id, schema, v)
    ensures var after := Iterate(w, schema, v, at);
      && SameRow(w.ledger.batches[id], after.ledger.batches[id])
      && after.ledger.batches[id].cursor == w.ledger.batches[id].cursor && ScannedOf(after, id) == ScannedOf(w, id)
  {
    var window := ScanWindow(w.ledger, schema, v.block);
    if window.Some? {
      var other := WindowIsOf(w.ledger, schema, v.block);
    }
    OnlyItsBatch(w, id, window, schema, SnapshotOf(v, window), at);
  }

  /** The batch a window is read for has its cursor moved to the window's end, unless this closed it; and the window
      counts as scanned if its reveals were read under the batch's own identity. */
  lemma ReadWindow(w: World, id: nat, schema: string, v: ChainView, at: string)
    requires Inv(w.ledger) && Reads(w, id, schema, v)
    ensures var b, after := w.ledger.batches[id], Iterate(w, schema, v, at);
      var r, window := after.ledger.batches[id], WindowOf(id, b, v.block);
      && SameRow(b, r)
      && r.cursor == (if Open(r.state) then Later(b.cursor, Some(window.value.end)) else b.cursor)
      && ScannedOf(after, id) ==
           (if IdentityMatches(b, SnapshotOf(v, window))
            then ScannedOf(w, id) + Blocks(window.value.start, window.value.end)
                                  else ScannedOf(w, id))
  {
    TheWindow(w.ledger, schema, id, v.block);
    var window := WindowOf(id, w.ledger.batches[id], v.block);
    ResolvedRowKeepsScan(w.ledger, id, schema, SnapshotOf(v, window), FINALITY_MARGIN_BLOCKS, at);
  }

  // -- runs of the driver ---------------------------------------------------------------

  datatype DriverEvent =
    | Recording(emission: NewEmission)
    | Finishing(id: nat, outcome: Outcome)
    | Scanning(schema: string, view: ChainView, at: string)

  ghost function Drive(w: World, e: DriverEvent): (r: World)
    requires Inv(w.ledger)
    ensures Inv(r.ledger)
  {
    match e
    case Recording(a) => RecordKeepsInv(w.ledger, a); World(Record(w.ledger, a), w.scanned)
    case Finishing(id, t) => TransitionKeepsInv(w.ledger, id, t); World(Transition(w.ledger, id, t), w.scanned)
    case Scanning(schema, v, at) => Iterate(w, schema, v, at)
  }

  /** The world after any run of recordings, outcomes and scanned windows. */
  ghost function DriveAll(events: seq<DriverEvent>): (w: World)
    ensures Inv(w.ledger)
    decreases |events|
  {
    if events == [] then World(EMPTY, map[]) else Drive(DriveAll(events[..|events| - 1]), events[|events| - 1])
  }

  /** The cursor lies between submission and reveal deadline, and bounds what was scanned for an open batch. */
  ghost predicate TrackedBatch(b: Batch, scanned: set<int>) {
    && (b.cursor.Some? ==> b.submission.Some? && b.revealDeadline.Some?
                           && b.submission.value <= b.cursor.value <= b.revealDeadline.value)
    && (Open(b.state) ==> forall k | k in scanned :: b.cursor.Some? && k <= b.cursor.value)
  }

  ghost predicate TrackedRow(w: World, id: nat) {
    if id in w.ledger.batches then TrackedBatch(w.ledger.batches[id], ScannedOf(w, id)) else ScannedOf(w, id) == {}
  }

  ghost predicate Tracked(w: World) {
    forall id {:trigger TrackedRow(w, id)} :: TrackedRow(w, id)
  }

  /** Some block from the submission through the cursor was never scanned for the batch. */
  ghost predicate HasGap(b: Batch, scanned: set<int>) {
    b.cursor.Some? && b.submission.Some? && !AllScanned(scanned, b.submission.value, b.cursor.value)
  }

  ghost predicate Gap(w: World, id: nat) {
    id in w.ledger.batches && HasGap(w.ledger.batches[id], ScannedOf(w, id))
  }

  /** The window of an open batch is read under another identity than its own, which is not yet past both its
      deadlines: the batch stays open, and its cursor moves. */
  ghost predicate MovedByAnother(w: World, e: DriverEvent, id: nat)
    requires Inv(w.ledger)
  {
    && e.Scanning? && Reads(w, id, e.schema, e.view)
    && var b := w.ledger.batches[id];
    && !IdentityMatches(b, SnapshotOf(e.view, None)) && e.view.block <= MaxOf(b.deadline.value, b.revealDeadline.value)
  }

  /** Such a window is the only kind that leaves the batch open without being scanned for it. */
  lemma MovedIfOpen(w: World, id: nat, schema: string, v: ChainView, at: string)
    requires Inv(w.ledger) && Reads(w, id, schema, v) && !IdentityMatches(w.ledger.batches[id], SnapshotOf(v, None))
    ensures Open(Iterate(w, schema, v, at).ledger.batches[id].state) <==> MovedByAnother(w, Scanning(schema, v, at), id)
  {
    var b := w.ledger.batches[id];
    StateIsDecided(w, id, schema, v, at);
    ForeignClosesExactly(b, schema, SnapshotOf(v, WindowOf(id, b, v.block)), FINALITY_MARGIN_BLOCKS, at);
  }

  lemma WindowTracked(b: Batch, r: Batch, scanned: set<int>, own: bool, id: nat, finalized: int)
    requires TrackedBatch(b, scanned) && Open(b.state) && b.submission.Some? && b.revealDeadline.Some?
    requires SameRow(b, r) && WindowOf(id, b, finalized).Some?
    requires r.cursor == if Open(r.state) then Later(b.cursor, Some(WindowOf(id, b, finalized).value.end)) else b.cursor
    ensures var w := WindowOf(id, b, finalized).value;
      var after := if own then scanned + Blocks(w.start, w.end) else scanned;
      && TrackedBatch(r, after)
      && (HasGap(r, after) <==> HasGap(b, scanned) || (Open(r.state) && !own))
  {
    var w := WindowOf(id, b, finalized).value;
    WindowContiguous(id, b, finalized);
    var after := if own then scanned + Blocks(w.start, w.end) else scanned;
    if HasGap(b, scanned) {
      var k :| b.submission.value <= k <= b.cursor.value && k !in scanned;
      assert k !in after && k <= r.cursor.value;
    } else if Open(r.state) && !own {
      assert w.end !in after && b.submission.value <= w.end <= r.cursor.value;
    }
  }

  lemma ScanTracks(w: World, schema: string, v: ChainView, at: string, id: nat)
    requires Inv(w.ledger) && TrackedRow(w, id) && id in w.ledger.batches
    ensures var after := Iterate(w, schema, v, at);
      && TrackedRow(after, id)
      && (Gap(after, id) <==> Gap(w, id) || MovedByAnother(w, Scanning(schema, v, at), id))
  {
    if Reads(w, id, schema, v) {
      var b, r := w.ledger.batches[id], Iterate(w, schema, v, at).ledger.batches[id];
      ReadWindow(w, id, schema, v, at);
      WindowTracked(b, r, ScannedOf(w, id), IdentityMatches(b, SnapshotOf(v, None)), id, v.block);
      if !IdentityMatches(b, SnapshotOf(v, None)) {
        MovedIfOpen(w, id, schema, v, at);
      }
    } else {
      NotRead(w, id, schema, v, at);
    }
  }

  lemma ScanTracksNoOther(w: World, schema: string, v: ChainView, at: string, id: nat)
    requires Inv(w.ledger) && TrackedRow(w, id) && id !in w.ledger.batches
    ensures TrackedRow(Iterate(w, schema, v, at), id)
  {
    var window := ScanWindow(w.ledger, schema, v.block);
    if window.Some? {
      var other := WindowIsOf(w.ledger, schema, v.block);
    }
  }

  lemma RecordTracks(w: World, a: NewEmission, id: nat)
    requires Inv(w.ledger) && TrackedRow(w, id)
    ensures var after := World(Record(w.ledger, a), w.scanned);
      TrackedRow(after, id) && (Gap(after, id) <==> Gap(w, id))
  {
    assert RowFits(w.ledger, id);
  }

  lemma TransitionTracks(w: World, i: nat, t: Outcome, id: nat)
    requires Inv(w.ledger) && TrackedRow(w, id)
    ensures var after := World(Transition(w.ledger, i, t), w.scanned);
      TrackedRow(after, id) && (Gap(after, id) <==> Gap(w, id))
  {
  }

  lemma DriveTracks(w: World, e: DriverEvent, id: nat)
    requires Inv(w.ledger) && TrackedRow(w, id)
    ensures TrackedRow(Drive(w, e), id)
    ensures Gap(Drive(w, e), id) <==> Gap(w, id) || MovedByAnother(w, e, id)
  {
    match e
    case Recording(a) => RecordTracks(w, a, id);
    case Finishing(i, t) => TransitionTracks(w, i, t, id);
    case Scanning(schema, v, at) =>
      if id in w.ledger.batches {
        ScanTracks(w, schema, v, at, id);
      } else {
        ScanTracksNoOther(w, schema, v, at, id);
      }
  }

  /** No event of the run moved the batch's cursor by a scan under another identity. */
  ghost predicate ReadOnlyByItsOwn(events: seq<DriverEvent>, id: nat)
    decreases |events|
  {
    events == [] ||
    var front := events[..|events| - 1];
    ReadOnlyByItsOwn(front, id) && !MovedByAnother(DriveAll(front), events[|events| - 1], id)
  }

  /** Over every run of recordings, outcomes and scanned windows: the scan leaves no gap up to a batch's cursor if and
      only if no scan under another identity moved that cursor. */
  lemma {:induction false} CoverExactly(events: seq<DriverEvent>, id: nat)
    ensures TrackedRow(DriveAll(events), id)
    ensures !Gap(DriveAll(events), id) <==> ReadOnlyByItsOwn(events, id)
    decreases |events|
  {
    if events != [] {
      var n := |events| - 1;
      CoverExactly(events[..n], id);
      DriveTracks(DriveAll(events[..n]), events[n], id);
    }
  }

  lemma StepKeepsEvidence(w: World, e: DriverEvent, id: nat)
    requires Inv(w.ledger) && id in w.ledger.batches
    ensures id in Drive(w, e).ledger.batches && Drive(w, e).ledger.batches[id].evidence == w.ledger.batches[id].evidence
    ensures Drive(w, e).ledger.batches[id].submission == w.ledger.batches[id].submission
  {
    match e
    case Recording(a) => RecordFollows(w.ledger, a, id);
    case Finishing(i, t) => TransitionFollows(w.ledger, i, t, id);
    case Scanning(schema, v, at) =>
      if Reads(w, id, schema, v) {
        ReadWindow(w, id, schema, v, at);
      } else {
        NotRead(w, id, schema, v, at);
      }
  }

  ghost predicate OneScanner(events: seq<DriverEvent>, who: Evidence) {
    forall i | 0 <= i < |events| && events[i].Scanning? ::
      var v := events[i].view;
      who == Evidence(Some(v.chain), Some(v.netuid), Some(v.uid), Some(v.hotkey))
  }

  lemma {:induction false} OneScannerMovesItsOwn(events: seq<DriverEvent>, id: nat, who: Evidence)
    requires OneScanner(events, who)
    requires id in DriveAll(events).ledger.batches ==> DriveAll(events).ledger.batches[id].evidence == who
    ensures ReadOnlyByItsOwn(events, id)
    decreases |events|
  {
    if events != [] {
      var n := |events| - 1;
      if id in DriveAll(events[..n]).ledger.batches {
        StepKeepsEvidence(DriveAll(events[..n]), events[n], id);
      }
      OneScannerMovesItsOwn(events[..n], id, who);
    }
  }

  /** In particular a validator that scans under one identity for the whole run leaves no gap in the scan of a batch of
      that identity. */
  lemma OneIdentityLeavesNoGap(events: seq<DriverEvent>, id: nat, who: Evidence)
    requires OneScanner(events, who) && id in DriveAll(events).ledger.batches
    requires DriveAll(events).ledger.batches[id].evidence == who
    ensures !Gap(DriveAll(events), id)
  {
    OneScannerMovesItsOwn(events, id, who);
    CoverExactly(events, id);
  }

  // -- unconfirmed only after the whole scan ---------------------------------------------

  lemma ClosingWindow(b: Batch, id: nat, schema: string, v: ChainView, at: string, scanned: set<int>)
    requires Constraints(b) && Scannable(b, schema) && TrackedBatch(b, scanned)
    requires var s := SnapshotOf(v, WindowOf(id, b, v.block));
      && ResolveCheck(s, FINALITY_MARGIN_BLOCKS).None? && IdentityMatches(b, s)
      && |Candidates(b, s, FINALITY_MARGIN_BLOCKS)| <= 1
      && ResolveOne(b, schema, s, FINALITY_MARGIN_BLOCKS, at).state == Unconfirmed
    ensures var w := WindowOf(id, b, v.block);
      var seen := if w.Some? then scanned + Blocks(w.value.start, w.value.end) else scanned;
      AllScanned(seen, b.submission.value, b.revealDeadline.value)
      <==> !HasGap(b, scanned)
  {
    var w := WindowOf(id, b, v.block);
    Cr4UnconfirmedExactly(b, schema, SnapshotOf(v, w), FINALITY_MARGIN_BLOCKS, at);
    if HasGap(b, scanned) {
      var k :| b.submission.value <= k <= b.cursor.value && k !in scanned;
      assert w.Some? ==> k < w.value.start;
    }
  }

  /** After any run, when a window leaves a timelocked batch of this identity unconfirmed, with at most one candidate
      commitment, the reveals of every block from its submission through its reveal deadline had been read for it, if
      and only if no scan under another identity ever moved its cursor. */
  lemma UnconfirmedOnlyAfterFullScan(events: seq<DriverEvent>, id: nat, schema: string, v: ChainView, at: string)
    requires var w := DriveAll(events);
      && RowFits(w.ledger, id) && id in w.ledger.batches && Scannable(w.ledger.batches[id], schema)
      && var s := SnapshotOf(v, ScanWindow(w.ledger, schema, v.block));
      && IdentityMatches(w.ledger.batches[id], s) && |Candidates(w.ledger.batches[id], s, FINALITY_MARGIN_BLOCKS)| <= 1
    requires Iterate(DriveAll(events), schema, v, at).ledger.batches[id].state == Unconfirmed
    ensures var b, after := DriveAll(events).ledger.batches[id], Iterate(DriveAll(events), schema, v, at);
      AllScanned(ScannedOf(after, id), b.submission.value, b.revealDeadline.value) <==> ReadOnlyByItsOwn(events, id)
  {
    var w := DriveAll(events);
    CoverExactly(events, id);
    ClosedByWindow(w, id, schema, v, at);
  }

  lemma ClosesByDecision(w: World, id: nat, schema: string, v: ChainView, at: string)
    requires Inv(w.ledger) && id in w.ledger.batches && Scannable(w.ledger.batches[id], schema) && RowFits(w.ledger, id)
    requires Iterate(w, schema, v, at).ledger.batches[id].state == Unconfirmed
    ensures var s := SnapshotOf(v, ScanWindow(w.ledger, schema, v.block));
      && ResolveCheck(s, FINALITY_MARGIN_BLOCKS).None?
      && ResolveOne(w.ledger.batches[id], schema, s, FINALITY_MARGIN_BLOCKS, at).state == Unconfirmed
  {
    TheWindow(w.ledger, schema, id, v.block);
    StateIsDecided(w, id, schema, v, at);
  }

  lemma ClosedByWindow(w: World, id: nat, schema: string, v: ChainView, at: string)
    requires Inv(w.ledger) && id in w.ledger.batches && Scannable(w.ledger.batches[id], schema) && TrackedRow(w, id)
    requires RowFits(w.ledger, id)
    requires var s := SnapshotOf(v, ScanWindow(w.ledger, schema, v.block));
      && IdentityMatches(w.ledger.batches[id], s) && |Candidates(w.ledger.batches[id], s, FINALITY_MARGIN_BLOCKS)| <= 1
    requires Iterate(w, schema, v, at).ledger.batches[id].state == Unconfirmed
    ensures var b, after := w.ledger.batches[id], Iterate(w, schema, v, at);
      AllScanned(ScannedOf(after, id), b.submission.value, b.revealDeadline.value) <==> !Gap(w, id)
  {
    TheWindow(w.ledger, schema, id, v.block);
    if Reads(w, id, schema, v) {
      ReadWindow(w, id, schema, v, at);
    } else {
      NotRead(w, id, schema, v, at);
    }
    ClosesByDecision(w, id, schema, v, at);
    ClosingWindow(w.ledger.batches[id], id, schema, v, at, ScannedOf(w, id));
  }

  // -- the budget keeps up with the chain --------------------------------------------------

  /** The blocks a scan still owes up to `head`. */
  function Backlog(b: Batch, head: int): int
    requires b.submission.Some? && b.revealDeadline.Some?
  {
    MaxOf(0, MinOf(head, b.revealDeadline.value) - ScanStart(b) + 1)
  }

  lemma WindowShrinksBacklog(id: nat, b: Batch, head: int)
    requires b.submission.Some? && b.revealDeadline.Some? && WindowOf(id, b, head).Some?
    ensures var after := b.(cursor := Later(b.cursor, Some(WindowOf(id, b, head).value.end)));
      Backlog(after, head) == MaxOf(0, Backlog(b, head) - CR4_REVEAL_SCAN_BATCH_BLOCKS)
  {
  }

  /** The batch can still be scanned, and owes `blocks` fewer blocks, or none. */
  ghost predicate Shrunk(b: Batch, after: Batch, schema: string, head: int, blocks: int) {
    && Scannable(b, schema) && Scannable(after, schema) && b.submission.Some? && after.submission.Some?
    && after.revealDeadline == b.revealDeadline
    && Backlog(after, head) == MaxOf(0, Backlog(b, head) - blocks)
  }

  ghost predicate ViewValid(v: ChainView) {
    ResolveCheck(SnapshotOf(v, None), FINALITY_MARGIN_BLOCKS).None?
  }

  /** A window never reads past the finalized block, so its snapshot is never refused. */
  lemma WindowSnapshotValid(l: Ledger, schema: string, v: ChainView)
    requires Inv(l) && ViewValid(v)
    ensures ResolveCheck(SnapshotOf(v, ScanWindow(l, schema, v.block)), FINALITY_MARGIN_BLOCKS).None?
  {
    var window := ScanWindow(l, schema, v.block);
    if window.Some? {
      assert window.value.end <= v.block;
      var found := RevealsBetween(v, v.revealBlocks, window.value.start, window.value.end);
      forall i | 0 <= i < |found| ensures found[i].block <= v.block {
        assert found[i] in found;
      }
    }
  }

  lemma IterateShrinksBacklog(w: World, id: nat, schema: string, v: ChainView, at: string)
    requires Inv(w.ledger) && id in w.ledger.batches && Scannable(w.ledger.batches[id], schema) && ViewValid(v)
    requires Open(Iterate(w, schema, v, at).ledger.batches[id].state)
    ensures Shrunk(w.ledger.batches[id], Iterate(w, schema, v, at).ledger.batches[id], schema, v.block,
                   CR4_REVEAL_SCAN_BATCH_BLOCKS)
  {
    var b := w.ledger.batches[id];
    WindowSnapshotValid(w.ledger, schema, v);
    TheWindow(w.ledger, schema, id, v.block);
    if Reads(w, id, schema, v) {
      ReadWindow(w, id, schema, v, at);
      WindowShrinksBacklog(id, b, v.block);
    } else {
      NotRead(w, id, schema, v, at);
    }
  }

  lemma IterateKeepsClosed(w: World, id: nat, schema: string, v: ChainView, at: string)
    requires Inv(w.ledger) && id in w.ledger.batches && !Open(w.ledger.batches[id].state)
    ensures Iterate(w, schema, v, at).ledger.batches[id] == w.ledger.batches[id]
  {
    var window := ScanWindow(w.ledger, schema, v.block);
    var s := SnapshotOf(v, window);
    StepFreezesClosed(w.ledger, ResolveEvent(schema, s, FINALITY_MARGIN_BLOCKS, at), id);
  }

  lemma OnlyDueMoves(l: Ledger, k: nat, schema: string, s: Snapshot, at: string)
    requires Inv(l) && k in l.batches
    requires Resolve(l, schema, s, FINALITY_MARGIN_BLOCKS, at).batches[k] != l.batches[k]
    ensures Due(l.batches[k], schema)
  {
    assert RowFits(l, k);
  }

  lemma ClosedHere(l: Ledger, id: nat, schema: string, s: Snapshot, at: string)
    requires Inv(l) && id in l.batches && Scannable(l.batches[id], schema)
    requires Closed(l, Resolve(l, schema, s, FINALITY_MARGIN_BLOCKS, at))
    ensures !Open(Resolve(l, schema, s, FINALITY_MARGIN_BLOCKS, at).batches[id].state)
  {
    var r := Resolve(l, schema, s, FINALITY_MARGIN_BLOCKS, at);
    var k := FirstClosed(l, r);
    OnlyDueMoves(l, k, schema, s, at);
    assert k != id ==> !Clash(l, k, id);
  }

  lemma FirstClosed(l: Ledger, r: Ledger) returns (k: nat)
    requires Closed(l, r)
    ensures k in l.batches && k in r.batches && r.batches[k] != l.batches[k]
    ensures r.batches[k].state == Confirmed || r.batches[k].state == Unconfirmed
  {
    if k0 :| k0 in Became(l.batches, r.batches, Confirmed) {
      k := k0;
    } else {
      k :| k in Became(l.batches, r.batches, Unconfirmed);
    }
  }

  /** A pass stops early only when it has closed the batch, or has nothing left to scan. */
  lemma StopsWhenDone(w: World, id: nat, schema: string, v: ChainView, at: string)
    requires Inv(w.ledger) && id in w.ledger.batches && Scannable(w.ledger.batches[id], schema) && ViewValid(v)
    requires !GoesOn(w, schema, v, at) && Open(Iterate(w, schema, v, at).ledger.batches[id].state)
    ensures RowFits(w.ledger, id) && Backlog(w.ledger.batches[id], v.block) == 0
  {
    WindowSnapshotValid(w.ledger, schema, v);
    TheWindow(w.ledger, schema, id, v.block);
    var window := ScanWindow(w.ledger, schema, v.block);
    if window.Some? {
      ClosedHere(w.ledger, id, schema, SnapshotOf(v, window), at);
    }
  }

  /** What one turn does to a batch that can be scanned: closes it, or works off a window and goes on, or owes
      nothing more. */
  ghost predicate TurnShrinks(w: World, t: Turn, id: nat, schema: string, head: int) {
    && Inv(w.ledger) && id in w.ledger.batches && Scannable(w.ledger.batches[id], schema)
    && Inv(t.world.ledger) && id in t.world.ledger.batches
    && (Open(t.world.ledger.batches[id].state) ==>
          && Shrunk(w.ledger.batches[id], t.world.ledger.batches[id], schema, head, CR4_REVEAL_SCAN_BATCH_BLOCKS)
          && (!t.goOn ==> Backlog(w.ledger.batches[id], head) == 0))
  }

  lemma OneTurn(turn: World -> Turn, w: World, id: nat, schema: string, v: ChainView, at: string)
    requires Turns(turn, schema, v, at) && ViewValid(v)
    requires Inv(w.ledger) && id in w.ledger.batches && Scannable(w.ledger.batches[id], schema)
    ensures TurnShrinks(w, turn(w), id, schema, v.block)
  {
    var next := Iterate(w, schema, v, at);
    if Open(next.ledger.batches[id].state) {
      IterateShrinksBacklog(w, id, schema, v, at);
      if !GoesOn(w, schema, v, at) {
        StopsWhenDone(w, id, schema, v, at);
      }
    }
  }

  ghost function HasClosed(id: nat): World -> bool {
    (w: World) => Inv(w.ledger) && id in w.ledger.batches && !Open(w.ledger.batches[id].state)
  }

  lemma StaysClosed(turn: World -> Turn, w: World, id: nat, schema: string, v: ChainView, at: string, budget: nat)
    requires Turns(turn, schema, v, at) && HasClosed(id)(w)
    ensures HasClosed(id)(Repeat(turn, w, budget))
  {
    forall x | HasClosed(id)(x) ensures HasClosed(id)(turn(x).world) {
      IterateKeepsClosed(x, id, schema, v, at);
    }
    RepeatKeeps(turn, w, budget, HasClosed(id));
  }

  ghost predicate Remains(w: World, id: nat) {
    Inv(w.ledger) && id in w.ledger.batches && Open(w.ledger.batches[id].state)
  }

  lemma {:induction false} TurnsShrinkBacklog(turn: World -> Turn, w: World, id: nat, schema: string, v: ChainView,
                                              at: string, budget: nat)
    requires Turns(turn, schema, v, at) && ViewValid(v)
    requires Inv(w.ledger) && id in w.ledger.batches && Scannable(w.ledger.batches[id], schema)
    requires Remains(Repeat(turn, w, budget), id)
    ensures Shrunk(w.ledger.batches[id], Repeat(turn, w, budget).ledger.batches[id], schema, v.block,
                   budget * CR4_REVEAL_SCAN_BATCH_BLOCKS)
    decreases budget
  {
    assert RowFits(w.ledger, id);
    OneTurn(turn, w, id, schema, v, at);
    if budget > 0 {
      var t := turn(w);
      if t.goOn {
        if !Open(t.world.ledger.batches[id].state) {
          StaysClosed(turn, t.world, id, schema, v, at, budget - 1);
        }
        TurnsShrinkBacklog(turn, t.world, id, schema, v, at, budget - 1);
      }
    }
  }

  /** A pass that does not close the batch scans its full budget of windows, or everything owed. */
  lemma PassShrinksBacklog(w: World, id: nat, schema: string, v: ChainView, at: string, budget: nat)
    requires Inv(w.ledger) && id in w.ledger.batches && Scannable(w.ledger.batches[id], schema) && ViewValid(v)
    requires Remains(Pass(w, schema, v, at, budget), id)
    ensures Shrunk(w.ledger.batches[id], Pass(w, schema, v, at, budget).ledger.batches[id], schema, v.block,
                   budget * CR4_REVEAL_SCAN_BATCH_BLOCKS)
  {
    TurnsShrinkBacklog(OneWindow(schema, v, at), w, id, schema, v, at, budget);
  }

  lemma BacklogGrowsWithHead(b: Batch, head: int, later: int)
    requires b.submission.Some? && b.revealDeadline.Some?
    ensures Backlog(b, later) <= Backlog(b, head) + MaxOf(0, later - head)
  {
  }

  lemma BudgetCovers(epochLength: nat)
    ensures ScanBudget(epochLength) * CR4_REVEAL_SCAN_BATCH_BLOCKS >= epochLength + 1 + CR4_REVEAL_SCAN_BATCH_BLOCKS
  {
  }

  /** While the head moves no more than an epoch and a block between passes, a batch still open enters the next pass
      owing thirty-two blocks fewer, or no more than that one move: no backlog grows, and any is worked off. */
  lemma BudgetKeepsUp(w: World, id: nat, schema: string, v: ChainView, at: string, epochLength: nat, nextHead: int)
    requires Inv(w.ledger) && id in w.ledger.batches && Scannable(w.ledger.batches[id], schema) && ViewValid(v)
    requires Remains(Pass(w, schema, v, at, ScanBudget(epochLength)), id)
    requires nextHead <= v.block + epochLength + 1
    ensures var b, after := w.ledger.batches[id], Pass(w, schema, v, at, ScanBudget(epochLength)).ledger.batches[id];
      && b.submission.Some? && after.submission.Some? && after.revealDeadline == b.revealDeadline
      && Backlog(after, nextHead) <= MaxOf(epochLength + 1, Backlog(b, v.block) - CR4_REVEAL_SCAN_BATCH_BLOCKS)
  {
    PassShrinksBacklog(w, id, schema, v, at, ScanBudget(epochLength));
    var after := Pass(w, schema, v, at, ScanBudget(epochLength)).ledger.batches[id];
    BacklogGrowsWithHead(after, v.block, nextHead);
    BudgetCovers(epochLength);
  }
}
