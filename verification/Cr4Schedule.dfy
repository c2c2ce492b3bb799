/** When a timelocked weight commit must have been revealed: the subnet's epoch schedule, run forward. */
module Cr4Schedule {
  import opened Wrappers

  const COMMIT_INCLUSION_BLOCK_OFFSET := 1
  const MAX_REVEAL_PERIOD_EPOCHS := 100
  const MAX_TEMPO_BLOCKS := 50_400

  datatype Schedule = Schedule(lastEpochBlock: int, pendingEpochAt: int, epochIndex: int, tempo: int,
                               blocksSinceLastStep: int, currentBlock: int)

  datatype ScheduleError = NotPositive | NegativeMargin | RevealPeriodTooLong | BoundedSearchExceeded

  /** Whether `block` runs an epoch, as read before its coinbase: the step counter is not yet moved on to it. */
  predicate RunsEpoch(s: Schedule, block: int) {
    || (s.pendingEpochAt > 0 && block >= s.pendingEpochAt)
    || s.blocksSinceLastStep > MAX_TEMPO_BLOCKS
    || block - s.lastEpochBlock >= s.tempo
  }

  function EpochBeforeCoinbase(s: Schedule, block: int): int {
    s.epochIndex + if RunsEpoch(s, block) then 1 else 0
  }

  function Advance(s: Schedule, block: int): Schedule {
    s.(lastEpochBlock := block, pendingEpochAt := 0, epochIndex := s.epochIndex + 1, blocksSinceLastStep := 0,
       currentBlock := block)
  }

  function Min(a: int, b: int): int {
    if a <= b then a else b
  }

  function Max(a: int, b: int): int {
    if a >= b then a else b
  }

  function NextEpochBlock(s: Schedule): int {
    var regular := s.lastEpochBlock + s.tempo;
    var stepped := s.currentBlock + Max(1, MAX_TEMPO_BLOCKS - s.blocksSinceLastStep + 1);
    var least := if s.pendingEpochAt > 0 then Min(Min(regular, stepped), s.pendingEpochAt) else Min(regular, stepped);
    Max(s.currentBlock + 1, least)
  }

  method EpochStartAfterCommit(s: Schedule, epochsAfterCommit: int) returns (r: Result<int, ScheduleError>)
    ensures r == if s.tempo <= 0 || epochsAfterCommit <= 0 then Err(NotPositive)
                 else Ok(StartOf(s, EpochsUntil(s, epochsAfterCommit)))
    ensures r.Ok? ==> FirstVisible(s, VisibleIndex(s, s.currentBlock + 1) + epochsAfterCommit, r.value)
  {
    if s.tempo > 0 && epochsAfterCommit > 0 {
      StartIsFirstVisible(s, epochsAfterCommit);
    }
    if s.tempo <= 0 || epochsAfterCommit <= 0 {
      return Err(NotPositive);
    }
    var inclusion := s.currentBlock + COMMIT_INCLUSION_BLOCK_OFFSET;
    var commitEpoch := EpochBeforeCoinbase(s, inclusion);
    var target := commitEpoch + epochsAfterCommit;
    var state := s;
    for i := 0 to epochsAfterCommit + 1
      invariant state == StateAfter(s, i) && state.epochIndex == s.epochIndex + i
      invariant i < EpochsUntil(s, epochsAfterCommit)
    {
      var epochBlock := NextEpochBlock(state);
      if state.epochIndex + 1 == target && RunsEpoch(state, epochBlock) {
        return Ok(epochBlock);
      }
      state := Advance(state, epochBlock);
      if state.epochIndex == target {
        return Ok(epochBlock + 1);
      }
    }
    return Err(BoundedSearchExceeded);
  }

  method Cr4RevealDeadlineBlock(s: Schedule, revealPeriodEpochs: int, finalityMarginBlocks: int)
    returns (r: Result<int, ScheduleError>)
    ensures r == Deadline(s, revealPeriodEpochs, finalityMarginBlocks)
    ensures r.Ok? <==> finalityMarginBlocks >= 0 && 0 <= revealPeriodEpochs <= MAX_REVEAL_PERIOD_EPOCHS && s.tempo > 0
    ensures r.Ok? ==>
      FirstVisible(s, VisibleIndex(s, s.currentBlock + 1) + revealPeriodEpochs + 1, r.value - finalityMarginBlocks)
  {
    if finalityMarginBlocks < 0 {
      return Err(NegativeMargin);
    }
    if revealPeriodEpochs > MAX_REVEAL_PERIOD_EPOCHS {
      return Err(RevealPeriodTooLong);
    }
    var start := EpochStartAfterCommit(s, revealPeriodEpochs + 1);
    match start {
      case Ok(block) => r := Ok(block + finalityMarginBlocks);
      case Err(e) => r := Err(e);
    }
  }

  // -- the specification: the n-th epoch from here --------------------------

  /** The schedule after the next `n` epochs. */
  ghost function StateAfter(s: Schedule, n: nat): Schedule {
    if n == 0 then s else
      var before := StateAfter(s, n - 1);
      Advance(before, NextEpochBlock(before))
  }

  /** The block of the `n`-th epoch from here. */
  ghost function EpochBlock(s: Schedule, n: nat): int
    requires n > 0
  {
    NextEpochBlock(StateAfter(s, n - 1))
  }

  /** How many epochs from here the target lies: one more when the inclusion block itself runs one. */
  ghost function EpochsUntil(s: Schedule, epochsAfterCommit: int): int {
    epochsAfterCommit + if RunsEpoch(s, s.currentBlock + COMMIT_INCLUSION_BLOCK_OFFSET) then 1 else 0
  }

  /** The target epoch's block, or the block after it when the epoch is not yet visible before the coinbase there. */
  ghost function StartOf(s: Schedule, n: nat): int
    requires n > 0
  {
    EpochBlock(s, n) + if RunsEpoch(StateAfter(s, n - 1), EpochBlock(s, n)) then 0 else 1
  }

  ghost function Deadline(s: Schedule, revealPeriodEpochs: int, margin: int): Result<int, ScheduleError> {
    if margin < 0 then Err(NegativeMargin)
    else if revealPeriodEpochs > MAX_REVEAL_PERIOD_EPOCHS then Err(RevealPeriodTooLong)
    else if s.tempo <= 0 || revealPeriodEpochs < 0 then Err(NotPositive)
    else Ok(StartOf(s, EpochsUntil(s, revealPeriodEpochs + 1)) + margin)
  }

  // -- the chain, one block at a time ---------------------------------------

  /** An epoch is due at `block`, with the step counter moved on to it. */
  ghost predicate EpochDue(s: Schedule, block: int) {
    || (s.pendingEpochAt > 0 && block >= s.pendingEpochAt)
    || s.blocksSinceLastStep + (block - s.currentBlock) > MAX_TEMPO_BLOCKS
    || block - s.lastEpochBlock >= s.tempo
  }

  ghost function Tick(s: Schedule): Schedule {
    var block := s.currentBlock + 1;
    if EpochDue(s, block) then Advance(s, block)
    else s.(currentBlock := block, blocksSinceLastStep := s.blocksSinceLastStep + 1)
  }

  ghost function Run(s: Schedule, blocks: nat): Schedule {
    if blocks == 0 then s else Tick(Run(s, blocks - 1))
  }

  /** The jump lands on the least later block at which an epoch is due, for every schedule. */
  lemma NextEpochIsLeast(s: Schedule, block: int)
    ensures block == NextEpochBlock(s) <==>
      block > s.currentBlock && EpochDue(s, block) && forall b | s.currentBlock < b < block :: !EpochDue(s, b)
  {
    var next := NextEpochBlock(s);
    assert next > s.currentBlock && EpochDue(s, next) && forall b | s.currentBlock < b < next :: !EpochDue(s, b);
  }

  lemma {:induction false} QuietUntilNext(s: Schedule, m: nat)
    requires s.currentBlock + m < NextEpochBlock(s)
    ensures Run(s, m) == s.(currentBlock := s.currentBlock + m, blocksSinceLastStep := s.blocksSinceLastStep + m)
  {
    if m > 0 {
      QuietUntilNext(s, m - 1);
      NextEpochIsLeast(s, NextEpochBlock(s));
      assert !EpochDue(s, s.currentBlock + m);
    }
  }

  lemma {:induction false} RunAppend(s: Schedule, a: nat, b: nat)
    ensures Run(s, a + b) == Run(Run(s, a), b)
  {
    if b > 0 {
      RunAppend(s, a, b - 1);
    }
  }

  lemma {:induction false} EpochBlocksGrow(s: Schedule, n: nat)
    ensures StateAfter(s, n).currentBlock >= s.currentBlock + n
    ensures StateAfter(s, n).epochIndex == s.epochIndex + n && StateAfter(s, n).tempo == s.tempo
  {
    if n > 0 {
      EpochBlocksGrow(s, n - 1);
    }
  }

  /** A run that stands just before its next epoch's block takes one more tick to run it. */
  lemma TickRunsNext(s: Schedule, last: nat)
    requires s.currentBlock + last + 1 == NextEpochBlock(s)
    ensures Run(s, last + 1) == Advance(s, NextEpochBlock(s))
  {
    QuietUntilNext(s, last);
    NextEpochIsLeast(s, NextEpochBlock(s));
  }

  /** Jumping epoch by epoch visits exactly the epochs a block-by-block run visits: the run reaches the `n`-th
      epoch at its computed block, in the computed state. */
  lemma {:induction false} JumpsAreTheRun(s: Schedule, n: nat)
    ensures StateAfter(s, n).currentBlock >= s.currentBlock + n
    ensures Run(s, StateAfter(s, n).currentBlock - s.currentBlock) == StateAfter(s, n)
    decreases n
  {
    if n > 0 {
      var before := StateAfter(s, n - 1);
      JumpsAreTheRun(s, n - 1);
      var last := NextEpochBlock(before) - 1 - before.currentBlock;
      TickRunsNext(before, last);
      RunAppend(s, before.currentBlock - s.currentBlock, last + 1);
    }
  }

  lemma QuietIndex(s: Schedule, m: nat)
    requires s.currentBlock + m < NextEpochBlock(s)
    ensures Run(s, m).epochIndex == s.epochIndex
  {
    QuietUntilNext(s, m);
  }

  lemma QuietAfter(s: Schedule, n: nat, m: nat)
    requires n > 0 && s.currentBlock + m < EpochBlock(s, n) && s.currentBlock + m >= StateAfter(s, n - 1).currentBlock
    ensures Run(s, m).epochIndex < s.epochIndex + n
  {
    var before := StateAfter(s, n - 1);
    EpochBlocksGrow(s, n - 1);
    JumpsAreTheRun(s, n - 1);
    var start := before.currentBlock - s.currentBlock;
    RunAppend(s, start, m - start);
    QuietIndex(before, m - start);
  }

  /** And not before: until that block the run's index is still lower. */
  lemma {:induction false} NoEpochBefore(s: Schedule, n: nat, m: nat)
    requires n > 0 && s.currentBlock + m < EpochBlock(s, n)
    ensures Run(s, m).epochIndex < s.epochIndex + n
    decreases n
  {
    if s.currentBlock + m >= StateAfter(s, n - 1).currentBlock {
      QuietAfter(s, n, m);
    } else {
      NoEpochBefore(s, n - 1, m);
    }
  }

  // -- what is visible before the coinbase ----------------------------------

  /** Only the moved-on step counter makes an epoch due at `block`. */
  ghost predicate ForcedAt(s: Schedule, block: int) {
    EpochDue(s, block) && !RunsEpoch(s, block)
  }

  /** The index read before the inclusion block's coinbase is the index after that block, less an epoch the step
      counter forces there. */
  lemma IndexBeforeCoinbase(s: Schedule)
    ensures EpochBeforeCoinbase(s, s.currentBlock + COMMIT_INCLUSION_BLOCK_OFFSET)
         == Run(s, 1).epochIndex - if ForcedAt(s, s.currentBlock + 1) then 1 else 0
    ensures ForcedAt(s, s.currentBlock + 1) <==>
      && s.blocksSinceLastStep == MAX_TEMPO_BLOCKS && s.currentBlock + 1 - s.lastEpochBlock < s.tempo
      && !(0 < s.pendingEpochAt <= s.currentBlock + 1)
  {
    assert Run(s, 1) == Tick(Run(s, 0));
  }

  /** The epoch index read before the coinbase of `block`, on the chain run there block by block. */
  ghost function VisibleIndex(s: Schedule, block: int): int
    requires block > s.currentBlock
  {
    var before := Run(s, block - 1 - s.currentBlock);
    before.epochIndex + if RunsEpoch(before, block) then 1 else 0
  }

  /** `block` is the first from here on before whose coinbase the index is `target` or more. */
  ghost predicate FirstVisible(s: Schedule, target: int, block: int) {
    && block > s.currentBlock && VisibleIndex(s, block) >= target
    && forall b | s.currentBlock < b < block :: VisibleIndex(s, b) < target
  }

  lemma JustBeforeEpoch(s: Schedule, n: nat)
    requires n > 0
    ensures var before, block := StateAfter(s, n - 1), EpochBlock(s, n);
      && before.currentBlock < block && s.currentBlock < block
      && Run(s, block - 1 - s.currentBlock) ==
           before.(currentBlock := block - 1,
                   blocksSinceLastStep := before.blocksSinceLastStep + (block - 1 - before.currentBlock))
  {
    var before, block := StateAfter(s, n - 1), EpochBlock(s, n);
    JumpsAreTheRun(s, n - 1);
    QuietUntilNext(before, block - 1 - before.currentBlock);
    RunAppend(s, before.currentBlock - s.currentBlock, block - 1 - before.currentBlock);
  }

  /** Moving the step counter on to just before the next epoch makes no difference to what is visible of it. */
  lemma CounterStaysHidden(s: Schedule, m: nat)
    requires s.currentBlock + m + 1 == NextEpochBlock(s)
    ensures
      var later := s.(currentBlock := s.currentBlock + m, blocksSinceLastStep := s.blocksSinceLastStep + m);
      RunsEpoch(later, NextEpochBlock(s)) <==> RunsEpoch(s, NextEpochBlock(s))
  {
    NextEpochIsLeast(s, NextEpochBlock(s));
    assert m > 0 ==> !EpochDue(s, s.currentBlock + m);
  }

  lemma VisibleAtEpoch(s: Schedule, n: nat)
    requires n > 0
    ensures EpochBlock(s, n) > s.currentBlock
    ensures VisibleIndex(s, EpochBlock(s, n))
         == s.epochIndex + n - if RunsEpoch(StateAfter(s, n - 1), EpochBlock(s, n)) then 0 else 1
  {
    var before, block := StateAfter(s, n - 1), EpochBlock(s, n);
    JustBeforeEpoch(s, n);
    EpochBlocksGrow(s, n - 1);
    CounterStaysHidden(before, block - 1 - before.currentBlock);
  }

  lemma VisibleAfterEpoch(s: Schedule, n: nat)
    requires n > 0
    ensures EpochBlock(s, n) > s.currentBlock && VisibleIndex(s, EpochBlock(s, n) + 1) >= s.epochIndex + n
  {
    JumpsAreTheRun(s, n);
    EpochBlocksGrow(s, n);
  }

  lemma NotVisibleBefore(s: Schedule, n: nat, b: int)
    requires n > 0 && s.currentBlock < b < EpochBlock(s, n)
    ensures VisibleIndex(s, b) < s.epochIndex + n
  {
    var m := b - 1 - s.currentBlock;
    NoEpochBefore(s, n, m);
    NoEpochBefore(s, n, m + 1);
    RunKeepsBlock(s, m);
    assert Run(s, m + 1) == Tick(Run(s, m));
  }

  lemma {:induction false} RunKeepsBlock(s: Schedule, m: nat)
    ensures Run(s, m).currentBlock == s.currentBlock + m
  {
    if m > 0 {
      RunKeepsBlock(s, m - 1);
    }
  }

  /** The answer is the first block at which the index visible before the coinbase is so many epochs past the one
      visible at the inclusion block. */
  lemma StartIsFirstVisible(s: Schedule, epochsAfterCommit: int)
    requires s.tempo > 0 && epochsAfterCommit > 0
    ensures FirstVisible(s, VisibleIndex(s, s.currentBlock + 1) + epochsAfterCommit,
                         StartOf(s, EpochsUntil(s, epochsAfterCommit)))
  {
    var n := EpochsUntil(s, epochsAfterCommit);
    VisibleAtEpoch(s, n);
    VisibleAfterEpoch(s, n);
    forall b | s.currentBlock < b < EpochBlock(s, n) ensures VisibleIndex(s, b) < s.epochIndex + n {
      NotVisibleBefore(s, n, b);
    }
  }

  lemma FirstVisibleUnique(s: Schedule, target: int, a: int, b: int)
    requires FirstVisible(s, target, a) && FirstVisible(s, target, b)
    ensures a == b
  {
    assert VisibleIndex(s, a) >= target && VisibleIndex(s, b) >= target;
  }

  /** So is the deadline, less the margin, with the reveal period and one epoch more; and it is that block for no other
      reason: there is one such block. */
  lemma DeadlineIsFirstVisible(s: Schedule, revealPeriodEpochs: int, margin: int, block: int)
    requires Deadline(s, revealPeriodEpochs, margin).Ok?
    ensures Deadline(s, revealPeriodEpochs, margin).value == block + margin <==>
      FirstVisible(s, VisibleIndex(s, s.currentBlock + 1) + revealPeriodEpochs + 1, block)
  {
    StartIsFirstVisible(s, revealPeriodEpochs + 1);
    var start := StartOf(s, EpochsUntil(s, revealPeriodEpochs + 1));
    var target := VisibleIndex(s, s.currentBlock + 1) + revealPeriodEpochs + 1;
    if FirstVisible(s, target, block) {
      FirstVisibleUnique(s, target, start, block);
    }
  }

  // -- closed form ------------------------------------------------------------

  /** After the first, epochs are a tempo apart, or a step counter's overflow when that is sooner. */
  lemma {:induction false} EpochsEvenlySpaced(s: Schedule, n: nat)
    requires n > 0 && s.tempo > 0
    ensures EpochBlock(s, n) == NextEpochBlock(s) + (n - 1) * Min(s.tempo, MAX_TEMPO_BLOCKS + 1)
  {
    if n > 1 {
      EpochsEvenlySpaced(s, n - 1);
      EpochBlocksGrow(s, n - 1);
      var gap := Min(s.tempo, MAX_TEMPO_BLOCKS + 1);
      assert (n - 1) * gap == (n - 2) * gap + gap;
    }
  }

  /** The answer is the block after the epoch's exactly when the step counter forces the epoch: after the first, only
      at a tempo longer than the counter runs. */
  lemma VisibleBlockLater(s: Schedule, n: nat)
    requires n > 0 && s.tempo > 0
    ensures n > 1 ==> (StartOf(s, n) == EpochBlock(s, n) + 1 <==> s.tempo > MAX_TEMPO_BLOCKS + 1)
    ensures n == 1 ==> (StartOf(s, n) == EpochBlock(s, n) + 1 <==>
      && s.blocksSinceLastStep <= MAX_TEMPO_BLOCKS
      && NextEpochBlock(s) < s.lastEpochBlock + s.tempo
      && (s.pendingEpochAt > 0 ==> NextEpochBlock(s) < s.pendingEpochAt))
  {
    if n > 1 {
      EpochBlocksGrow(s, n - 1);
    }
  }

  /** With a tempo the chain allows and a step counter no older than the last epoch, the deadline is the first
      epoch, plus the reveal period (one epoch more when the inclusion block runs one) in tempos, plus the margin. */
  lemma DeadlineClosedForm(s: Schedule, revealPeriodEpochs: int, margin: int)
    requires margin >= 0 && 0 <= revealPeriodEpochs <= MAX_REVEAL_PERIOD_EPOCHS && 0 < s.tempo <= MAX_TEMPO_BLOCKS
    requires s.blocksSinceLastStep <= s.currentBlock - s.lastEpochBlock
    ensures Deadline(s, revealPeriodEpochs, margin)
         == Ok(NextEpochBlock(s) + (EpochsUntil(s, revealPeriodEpochs + 1) - 1) * s.tempo + margin)
  {
    var n := EpochsUntil(s, revealPeriodEpochs + 1);
    EpochsEvenlySpaced(s, n);
    VisibleBlockLater(s, n);
  }

  /** So a forced epoch at the inclusion block counts toward the reveal period: the deadline is that block, plus the
      period in tempos, plus the margin (with no period, the block after it, from which the forced epoch is visible). */
  lemma ForcedEpochDeadline(s: Schedule, revealPeriodEpochs: int, margin: int)
    requires margin >= 0 && 0 <= revealPeriodEpochs <= MAX_REVEAL_PERIOD_EPOCHS && 0 < s.tempo <= MAX_TEMPO_BLOCKS
    requires ForcedAt(s, s.currentBlock + 1)
    ensures Deadline(s, revealPeriodEpochs, margin)
         == Ok(s.currentBlock + 1 + margin + if revealPeriodEpochs == 0 then 1 else revealPeriodEpochs * s.tempo)
  {
    EpochsEvenlySpaced(s, revealPeriodEpochs + 1);
    VisibleBlockLater(s, revealPeriodEpochs + 1);
  }

  /** For one: the step counter full, a whole tempo to go, and a reveal period of one epoch. */
  lemma ForcedEpochExample()
    ensures var s := Schedule(100, 0, 0, 50_400, MAX_TEMPO_BLOCKS, 100);
      ForcedAt(s, 101) && Deadline(s, 1, 12) == Ok(50_513)
  {
    var s := Schedule(100, 0, 0, 50_400, MAX_TEMPO_BLOCKS, 100);
    ForcedEpochDeadline(s, 1, 12);
  }

  /** In every case the deadline is at least `revealPeriodEpochs` full gaps after the inclusion block. */
  lemma DeadlineNotBefore(s: Schedule, revealPeriodEpochs: int, margin: int, shortest: int)
    requires Deadline(s, revealPeriodEpochs, margin).Ok? && 0 <= shortest <= s.tempo && shortest <= MAX_TEMPO_BLOCKS + 1
    ensures Deadline(s, revealPeriodEpochs, margin).value
         >= s.currentBlock + COMMIT_INCLUSION_BLOCK_OFFSET + revealPeriodEpochs * shortest + margin
  {
    var n := EpochsUntil(s, revealPeriodEpochs + 1);
    var gap := Min(s.tempo, MAX_TEMPO_BLOCKS + 1);
    EpochsEvenlySpaced(s, n);
    MoreGaps(revealPeriodEpochs, n - 1, shortest, gap);
  }

  lemma MoreGaps(m: int, n: int, small: int, gap: int)
    requires 0 <= m <= n && 0 <= small <= gap
    ensures m * small <= n * gap
  {
    assert m * small <= m * gap;
    assert (n - m) * gap >= 0;
  }
}
