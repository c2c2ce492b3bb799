/** What one finalized snapshot makes of an open batch, in the snapshot's own terms. */
module EmissionEvidence {
  import opened Wrappers
  import opened EmissionStore
  import opened EmissionRuns
  import opened EmissionDriver
  import opened EmissionScan

  /** The commitment at `k` may be this batch's: this validator's, from the submission to a margin before the deadline,
      and the one already known, if one is. */
  ghost predicate Ours(b: Batch, s: Snapshot, margin: int, k: nat) {
    && k < |s.commitments| && s.commitments[k].hotkey == s.hotkey
    && b.submission.Some? && s.commitments[k].block >= b.submission.value
    && b.deadline.Some? && s.commitments[k].block <= b.deadline.value - margin
    && (b.commitmentHash.Some? ==> b.commitmentHash.value == s.commitments[k].hash)
    && (b.revealRound.Some? ==> b.revealRound.value == s.commitments[k].round)
  }

  ghost predicate NoneOurs(b: Batch, s: Snapshot, margin: int) {
    forall k: nat :: !Ours(b, s, margin, k)
  }

  ghost predicate OnlyOurs(b: Batch, s: Snapshot, margin: int, k: nat) {
    Ours(b, s, margin, k) && forall j: nat | Ours(b, s, margin, j) :: j == k
  }

  ghost predicate SeveralOurs(b: Batch, s: Snapshot, margin: int) {
    exists j: nat, k: nat :: j < k && Ours(b, s, margin, j) && Ours(b, s, margin, k)
  }

  /** This validator's reveal on this subnet, from where the commitment was seen, else from the submission, to the
      reveal deadline. */
  ghost predicate Stands(b: Batch, s: Snapshot, r: Reveal) {
    && r.hotkey == s.hotkey && r.netuid == s.netuid
    && (b.observedBlock.Some? ==> b.observedBlock.value <= r.block)
    && (b.observedBlock.None? && b.submission.Some? ==> b.submission.value <= r.block)
    && (b.revealDeadline.Some? ==> r.block <= b.revealDeadline.value)
  }

  ghost predicate Revealed(b: Batch, s: Snapshot) {
    exists r :: r in s.revealEvents && Stands(b, s, r)
  }

  lemma CandidateIsOurs(b: Batch, s: Snapshot, margin: int, k: nat)
    requires Constraints(b) && Open(b.state) && k < |s.commitments|
    ensures IsCandidate(b, s, margin, s.commitments[k]) <==> Ours(b, s, margin, k)
  {
  }

  ghost predicate SomeFrom(b: Batch, s: Snapshot, margin: int, from: nat) {
    exists k: nat :: k >= from && Ours(b, s, margin, k)
  }

  ghost predicate SeveralFrom(b: Batch, s: Snapshot, margin: int, from: nat) {
    exists j: nat, k: nat :: from <= j < k && Ours(b, s, margin, j) && Ours(b, s, margin, k)
  }

  ghost predicate FirstFrom(b: Batch, s: Snapshot, margin: int, from: nat, k: nat) {
    k >= from && Ours(b, s, margin, k) && forall j: nat | from <= j < k :: !Ours(b, s, margin, j)
  }

  lemma {:induction false} CandidatesFrom(b: Batch, s: Snapshot, margin: int, from: nat)
    requires Constraints(b) && Open(b.state) && from <= |s.commitments|
    ensures var found := CandidatesIn(b, s, margin, s.commitments[from..]);
      && (found != [] <==> SomeFrom(b, s, margin, from)) && (|found| > 1 <==> SeveralFrom(b, s, margin, from))
      && (found != [] ==> exists k: nat :: FirstFrom(b, s, margin, from, k) && found[0] == s.commitments[k])
    decreases |s.commitments| - from
  {
    if from < |s.commitments| {
      var commits, found := s.commitments[from..], CandidatesIn(b, s, margin, s.commitments[from..]);
      assert commits[0] == s.commitments[from] && commits[1..] == s.commitments[from + 1..];
      var rest := CandidatesIn(b, s, margin, commits[1..]);
      CandidatesFrom(b, s, margin, from + 1);
      CandidateIsOurs(b, s, margin, from);
      if Ours(b, s, margin, from) {
        assert FirstFrom(b, s, margin, from, from) && found[0] == s.commitments[from];
        if k: nat :| k >= from + 1 && Ours(b, s, margin, k) {
          assert SeveralFrom(b, s, margin, from);
        }
      } else if rest != [] {
        var k: nat :| FirstFrom(b, s, margin, from + 1, k) && rest[0] == s.commitments[k];
        assert FirstFrom(b, s, margin, from, k);
      }
    }
  }

  lemma FirstIsOnly(b: Batch, s: Snapshot, margin: int, k: nat)
    requires FirstFrom(b, s, margin, 0, k) && !SeveralFrom(b, s, margin, 0)
    ensures OnlyOurs(b, s, margin, k)
  {
  }

  /** The candidates are the commitments that may be ours, counted by place. */
  lemma CandidatesCounted(b: Batch, s: Snapshot, margin: int)
    requires Constraints(b) && Open(b.state)
    ensures var found := Candidates(b, s, margin);
      && (|found| > 1 <==> SeveralOurs(b, s, margin)) && (found == [] <==> NoneOurs(b, s, margin))
      && (|found| == 1 ==> exists k: nat :: OnlyOurs(b, s, margin, k) && found[0] == s.commitments[k])
  {
    CandidatesFrom(b, s, margin, 0);
    var found := Candidates(b, s, margin);
    assert s.commitments[0..] == s.commitments;
    if |found| == 1 {
      var k: nat :| FirstFrom(b, s, margin, 0, k) && found[0] == s.commitments[k];
      FirstIsOnly(b, s, margin, k);
    }
  }

  lemma RevealedExactly(b: Batch, s: Snapshot)
    requires b.submission.Some?
    ensures Revealed(b, s) <==> RevealSeen(b, s)
  {
    RevealSeenExactly(b, s);
    assert forall r :: Stands(b, s, r) <==> RevealCounts(b, s, r);
  }

  // -- the decision -----------------------------------------------------------

  ghost predicate OurIdentity(b: Batch, s: Snapshot) {
    && b.evidence.chain == Some(s.chain) && b.evidence.netuid == Some(s.netuid)
    && b.evidence.uid == Some(s.uid) && b.evidence.hotkey == Some(s.hotkey)
  }

  /** The row with the one commitment that may be ours noted in it, and the last update it was seen with. */
  ghost predicate Observes(b: Batch, r: Batch, s: Snapshot, margin: int, k: nat) {
    && OnlyOurs(b, s, margin, k)
    && r == b.(observedBlock := Some(s.commitments[k].block), observedLastUpdate := Some(s.lastUpdate),
               commitmentHash := Some(s.commitments[k].hash), revealRound := Some(s.commitments[k].round))
  }

  /** The row of a timelocked batch after a snapshot that is its own. */
  ghost predicate Cr4Becomes(b: Batch, r: Batch, s: Snapshot, margin: int, at: string)
    requires Constraints(b) && Open(b.state)
  {
    if SeveralOurs(b, s, margin) then r == if s.block > b.deadline.value then b.(state := Unconfirmed) else b
    else if Revealed(b, s) && ExactVector(b, s) && ExactIntent(b, s) then
      r == b.(state := Confirmed, confirmedAt := Some(at), emitted := true)
    else if b.observedBlock.None? && !NoneOurs(b, s, margin) then
      exists k: nat :: Observes(b, r, s, margin, k)
    else
      var given := if b.revealDeadline.Some? then b.revealDeadline.value else b.deadline.value;
      r == if s.scanComplete && s.block > given && (NoneOurs(b, s, margin) || b.observedLastUpdate.None?)
           then b.(state := Unconfirmed) else b
  }

  lemma ObservedRow(b: Batch, s: Snapshot, margin: int, k: nat, c: Commit, at: string)
    requires Constraints(b) && Open(b.state) && Ours(b, s, margin, k) && c == s.commitments[k]
    ensures Apply(b, Observe(c.block, s.lastUpdate, if b.commitmentHash.None? then Some(c.hash) else None,
                             if b.revealRound.None? then Some(c.round) else None), at)
         == b.(observedBlock := Some(c.block), observedLastUpdate := Some(s.lastUpdate),
               commitmentHash := Some(c.hash), revealRound := Some(c.round))
  {
  }

  lemma ObservedApplied(b: Batch, s: Snapshot, margin: int, matches: bool, at: string)
    requires Constraints(b) && Open(b.state) && |Candidates(b, s, margin)| == 1
    requires b.observedBlock.None? && !(RevealSeen(b, s) && matches)
    ensures exists k: nat :: Observes(b, Apply(b, Cr4Resolution(b, s, margin, matches), at), s, margin, k)
  {
    CandidatesCounted(b, s, margin);
    var k: nat :| OnlyOurs(b, s, margin, k) && Candidates(b, s, margin)[0] == s.commitments[k];
    ObservedRow(b, s, margin, k, s.commitments[k], at);
    assert Observes(b, Apply(b, Cr4Resolution(b, s, margin, matches), at), s, margin, k);
  }

  lemma Cr4AppliedExactly(b: Batch, s: Snapshot, margin: int, matches: bool, at: string)
    requires Constraints(b) && Open(b.state) && SnapshotValid(s)
    requires matches == (ExactVector(b, s) && ExactIntent(b, s))
    ensures Cr4Becomes(b, Apply(b, Cr4Resolution(b, s, margin, matches), at), s, margin, at)
  {
    CandidatesCounted(b, s, margin);
    RevealedExactly(b, s);
    if |Candidates(b, s, margin)| == 1 && b.observedBlock.None? && !(RevealSeen(b, s) && matches) {
      ObservedApplied(b, s, margin, matches, at);
    }
  }

  /** One resolution of a timelocked batch by a snapshot of its own identity: the row it leaves, whole. */
  lemma Cr4ResolvedExactly(b: Batch, schema: string, s: Snapshot, margin: int, at: string)
    requires Constraints(b) && Due(b, schema) && ResolveCheck(s, margin).None?
    requires b.mode == Some(Cr4) && OurIdentity(b, s)
    ensures var r := ResolveOne(b, schema, s, margin, at);
      if s.block < b.submission.value then r == b else Cr4Becomes(b, r, s, margin, at)
  {
    MatchesExactly(b, s);
    Cr4AppliedExactly(b, s, margin, VectorMatches(b, s) && IntentMatches(b, s), at);
  }

  // -- which inclusion counts ---------------------------------------------------

  /** A commitment included while the extrinsic is mortal, 128 blocks from the submission, always counts for the batch
      the driver stored; and with a head read after sending, none included later than 128 blocks past it does. */
  lemma MortalCommitCounts(b: Batch, i: Intended, answer: Reply, sampled: Option<int>, refreshed: Option<int>,
                           s: Snapshot, k: nat)
    requires FactsRead(i) && Answered(b, i, answer, sampled, refreshed) && Open(b.state) && k < |s.commitments|
    requires s.commitments[k].hotkey == s.hotkey
    requires b.commitmentHash.Some? ==> b.commitmentHash.value == s.commitments[k].hash
    requires b.revealRound.Some? ==> b.revealRound.value == s.commitments[k].round
    ensures i.submission <= s.commitments[k].block <= i.submission + 128 ==> Ours(b, s, FINALITY_MARGIN_BLOCKS, k)
    ensures Ours(b, s, FINALITY_MARGIN_BLOCKS, k) ==> i.submission <= s.commitments[k].block <= i.submission + 244
    ensures Ours(b, s, FINALITY_MARGIN_BLOCKS, k) ==>
      s.commitments[k].block <= 128 + if sampled.Some? then MaxOf(sampled.value, i.submission) else i.submission
  {
  }

  // -- a batch scanned to its end closes --------------------------------------------

  /** The scan cursor stands at the reveal deadline or past it. */
  ghost predicate ScannedThrough(b: Batch) {
    b.cursor.Some? && b.revealDeadline.Some? && b.cursor.value >= b.revealDeadline.value
  }

  lemma NoWindowLeft(id: nat, b: Batch, finalized: int)
    requires b.submission.Some? && ScannedThrough(b)
    ensures WindowOf(id, b, finalized).None?
  {
  }

  /** A timelocked batch that is scanned through does not stay open for ever: the first window turn of its own identity
      past the reveal deadline closes it, unless its commitment still stands on the chain. */
  lemma ScannedBatchCloses(w: World, id: nat, schema: string, v: ChainView, at: string)
    requires Inv(w.ledger) && id in w.ledger.batches && RowFits(w.ledger, id)
    requires Scannable(w.ledger.batches[id], schema) && ScannedThrough(w.ledger.batches[id])
    requires SnapshotValid(SnapshotOf(v, None)) && OurIdentity(w.ledger.batches[id], SnapshotOf(v, None))
    requires v.block > w.ledger.batches[id].revealDeadline.value && v.block >= w.ledger.batches[id].submission.value
    requires NoneOurs(w.ledger.batches[id], SnapshotOf(v, None), FINALITY_MARGIN_BLOCKS)
    ensures Iterate(w, schema, v, at).ledger.batches[id].state == Unconfirmed
  {
    var b, s := w.ledger.batches[id], SnapshotOf(v, None);
    NoWindowLeft(id, b, v.block);
    StateIsDecided(w, id, schema, v, at);
    Cr4ResolvedExactly(b, schema, s, FINALITY_MARGIN_BLOCKS, at);
    assert !Revealed(b, s);
  }
}
