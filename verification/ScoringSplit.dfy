/** However a budget splits a horizon into passes, what the EMAs end at. */
module ScoringSplit {
  import opened Wrappers
  import opened Scoring

  type Rows = map<Coordinate, Ema>
  type Targets = map<Coordinate, int>

  ghost predicate GoodRound(round: Round) {
    0.0 < round.alpha < 1.0
  }

  /** Coordinates resolved for this round are coordinates of this round. */
  ghost predicate OfRound(round: Round, t: Targets) {
    t.Keys <= round.coordinates
  }

  predicate PaysSomewhere(round: Round, keys: set<Coordinate>) {
    exists c | c in keys :: Pays(round, c)
  }

  // -- absent miners -----------------------------------------------------------------

  lemma ZeroDecays(alpha: real, v: real)
    requires 0.0 < alpha < 1.0 && v < ARCHIVE_EPSILON
    ensures EmaUpdate(alpha, v, 0.0) < ARCHIVE_EPSILON
  {
    var k := 1.0 - alpha;
    assert k * v <= k * ARCHIVE_EPSILON;
    assert k * ARCHIVE_EPSILON < ARCHIVE_EPSILON;
  }

  /** A small paying row stays small under zero observations, and a row created by one is small. */
  lemma StaysSmall(round: Round, h: Hotkey, rows: Rows, t: Targets, c: Coordinate)
    requires GoodRound(round) && h !in round.accepted && c in rows + Updates(round, h, rows, t)
    requires c in rows ==> rows[c].value < ARCHIVE_EPSILON
    ensures (rows + Updates(round, h, rows, t))[c].value < ARCHIVE_EPSILON
  {
    if c in t {
      ZeroDecays(round.alpha, if c in rows then rows[c].value else 0.0);
    }
  }

  lemma UpdatesOfUnion(round: Round, h: Hotkey, rows: Rows, a: Targets, b: Targets)
    requires a.Keys !! b.Keys
    ensures Updates(round, h, rows, a + b) == Updates(round, h, rows, a) + Updates(round, h, rows, b)
  {
  }

  lemma UpdatesCompose(round: Round, h: Hotkey, rows: Rows, a: Targets, b: Targets)
    requires a.Keys !! b.Keys
    ensures var first := rows + Updates(round, h, rows, a);
      first + Updates(round, h, first, b) == rows + Updates(round, h, rows, a + b)
  {
    var first := rows + Updates(round, h, rows, a);
    assert Updates(round, h, first, b) == Updates(round, h, rows, b) by {
      forall c | c in b ensures Observed(round, h, first, c, b[c]) == Observed(round, h, rows, c, b[c]) {
        assert c !in a;
      }
    }
    UpdatesOfUnion(round, h, rows, a, b);
  }

  /** Nothing is remembered that could bring the miner back into the scoring set. */
  ghost predicate Forgotten(round: Round, h: Hotkey, rows: Rows) {
    !InScoringSet(round, h, rows)
  }

  /** A miner pruned by the targets `a` whose retired rows in this round exist only if `b` would create them: the
      whole pass would give it a zero row on each of `b`'s retired coordinates, the split pass none. */
  ghost predicate Lost(round: Round, h: Hotkey, rows: Rows, a: Targets, b: Targets) {
    && round.active.Some? && InScoringSet(round, h, rows)
    && Pruned(round, h, rows + Updates(round, h, rows, a), a)
    && (forall c | c in rows && c in round.coordinates :: c in round.active.value)
    && a.Keys <= round.active.value
    && !(b.Keys <= round.active.value)
  }

  // -- two passes ------------------------------------------------------------------------

  lemma PresentComposes(round: Round, h: Hotkey, rows: Rows, a: Targets, b: Targets)
    requires a.Keys !! b.Keys && h in round.accepted
    ensures MinerPass(round, h, MinerPass(round, h, rows, a), b) == MinerPass(round, h, rows, a + b)
  {
    UpdatesCompose(round, h, rows, a, b);
  }

  lemma StillScored(round: Round, h: Hotkey, rows: Rows, a: Targets)
    requires InScoringSet(round, h, rows)
    ensures InScoringSet(round, h, rows + Updates(round, h, rows, a))
  {
    if h !in round.accepted {
      var c :| c in rows && (Pays(round, c) || c in round.coordinates);
      assert c in rows + Updates(round, h, rows, a);
    }
  }

  lemma KeptPrunesAlike(round: Round, h: Hotkey, first: Rows, a: Targets, b: Targets)
    requires a.Keys !! b.Keys && a.Keys <= first.Keys && !Pruned(round, h, first, a)
    ensures var second := first + Updates(round, h, first, b);
      Pruned(round, h, second, b) <==> Pruned(round, h, second, a + b)
  {
    var second := first + Updates(round, h, first, b);
    assert (a + b).Keys == a.Keys + b.Keys;
    if h !in round.accepted && !PaysSomewhere(round, b.Keys) && PaysSomewhere(round, a.Keys) {
      var c :| c in first && Pays(round, c) && first[c].value >= ARCHIVE_EPSILON;
      assert c !in b;
      assert second[c] == first[c];
    }
  }

  /** Not pruned by the first pass: the second sees every row, and prunes exactly when the whole pass would. */
  lemma KeptComposes(round: Round, h: Hotkey, rows: Rows, a: Targets, b: Targets)
    requires a.Keys !! b.Keys && InScoringSet(round, h, rows) && h !in round.accepted
    requires !Pruned(round, h, rows + Updates(round, h, rows, a), a)
    ensures MinerPass(round, h, MinerPass(round, h, rows, a), b) == MinerPass(round, h, rows, a + b)
  {
    StillScored(round, h, rows, a);
    UpdatesCompose(round, h, rows, a, b);
    KeptPrunesAlike(round, h, rows + Updates(round, h, rows, a), a, b);
  }

  lemma PrunedTogether(round: Round, h: Hotkey, rows: Rows, a: Targets, b: Targets)
    requires GoodRound(round) && a.Keys !! b.Keys && Pruned(round, h, rows + Updates(round, h, rows, a), a)
    ensures Pruned(round, h, rows + Updates(round, h, rows, a + b), a + b)
  {
    var first := rows + Updates(round, h, rows, a);
    UpdatesCompose(round, h, rows, a, b);
    assert forall c | c in a :: c in a + b;
    forall c | c in first + Updates(round, h, first, b) && Pays(round, c)
      ensures (first + Updates(round, h, first, b))[c].value < ARCHIVE_EPSILON
    {
      StaysSmall(round, h, first, b, c);
    }
  }

  lemma RetiredInStep(round: Round, h: Hotkey, first: Rows, b: Targets)
    requires round.active.Some?
    ensures var kept := Retired(round, first);
      Retired(round, kept + Updates(round, h, kept, b)) == Retired(round, first + Updates(round, h, first, b))
  {
    var kept := Retired(round, first);
    forall c | c in b && c !in round.active.value
      ensures Observed(round, h, kept, c, b[c]) == Observed(round, h, first, c, b[c])
    {
      assert c in kept <==> c in first;
    }
  }

  /** A scored miner with only retired rows: paying rows the pass creates for it are pruned again. */
  lemma RetiredOnly(round: Round, h: Hotkey, kept: Rows, b: Targets)
    requires GoodRound(round) && round.active.Some? && h !in round.accepted && InScoringSet(round, h, kept)
    requires forall c | c in kept :: !Pays(round, c)
    ensures MinerPass(round, h, kept, b) == Retired(round, kept + Updates(round, h, kept, b))
  {
    var second := kept + Updates(round, h, kept, b);
    forall c | c in second && Pays(round, c) ensures second[c].value < ARCHIVE_EPSILON && c in b {
      StaysSmall(round, h, kept, b, c);
    }
    if !Pruned(round, h, second, b) {
      assert forall c | c in second :: c !in round.active.value;
      assert Retired(round, second) == second;
    }
  }

  /** After pruning, the second pass keeps the retired rows in step if any of them still belongs to this round. */
  lemma RetiredComposes(round: Round, h: Hotkey, rows: Rows, a: Targets, b: Targets)
    requires GoodRound(round) && a.Keys !! b.Keys && round.active.Some?
    requires InScoringSet(round, h, rows) && Pruned(round, h, rows + Updates(round, h, rows, a), a)
    requires InScoringSet(round, h, Retired(round, rows + Updates(round, h, rows, a)))
    ensures MinerPass(round, h, Retired(round, rows + Updates(round, h, rows, a)), b)
        == MinerPass(round, h, rows, a + b)
  {
    var first := rows + Updates(round, h, rows, a);
    PrunedTogether(round, h, rows, a, b);
    UpdatesCompose(round, h, rows, a, b);
    RetiredInStep(round, h, first, b);
    RetiredOnly(round, h, Retired(round, first), b);
  }

  /** Pruned, and with nothing left to bring it back, the second pass leaves the miner alone. */
  lemma ForgottenStays(round: Round, h: Hotkey, rows: Rows, a: Targets, b: Targets)
    requires GoodRound(round) && a.Keys !! b.Keys && round.active.Some? && OfRound(round, a) && OfRound(round, b)
    requires InScoringSet(round, h, rows) && Pruned(round, h, rows + Updates(round, h, rows, a), a)
    requires Forgotten(round, h, Retired(round, rows + Updates(round, h, rows, a)))
    ensures Retired(round, rows + Updates(round, h, rows, a)) == MinerPass(round, h, rows, a + b)
      <==> b.Keys <= round.active.value
  {
    var first := rows + Updates(round, h, rows, a);
    var kept := Retired(round, first);
    PrunedTogether(round, h, rows, a, b);
    UpdatesCompose(round, h, rows, a, b);
    forall c | c in kept ensures c !in round.coordinates {
    }
    OnlyNewRetired(round, h, first, b);
  }

  lemma OnlyNewRetired(round: Round, h: Hotkey, first: Rows, b: Targets)
    requires round.active.Some? && OfRound(round, b)
    requires forall c | c in Retired(round, first) :: c !in round.coordinates
    ensures Retired(round, first + Updates(round, h, first, b)) == Retired(round, first) <==>
      b.Keys <= round.active.value
  {
    var whole := first + Updates(round, h, first, b);
    if c :| c in b && c !in round.active.value {
      assert c in Retired(round, whole) && c !in Retired(round, first);
    } else {
      assert Retired(round, whole) == Retired(round, first);
    }
  }

  lemma LostExactly(round: Round, h: Hotkey, rows: Rows, a: Targets, b: Targets)
    requires round.active.Some? && OfRound(round, a) && h !in round.accepted
    requires InScoringSet(round, h, rows) && Pruned(round, h, rows + Updates(round, h, rows, a), a)
    ensures Lost(round, h, rows, a, b) <==>
      Forgotten(round, h, Retired(round, rows + Updates(round, h, rows, a))) && !(b.Keys <= round.active.value)
  {
    var first := rows + Updates(round, h, rows, a);
    var kept := Retired(round, first);
    if c :| c in rows && c in round.coordinates && c !in round.active.value {
      assert c in kept;
    } else if c :| c in a && c !in round.active.value {
      assert c in kept;
    } else {
      forall c | c in kept ensures !Pays(round, c) && c !in round.coordinates {
      }
    }
  }

  /** Two passes over disjoint targets leave a miner as one pass over both does, if and only if the first does not
      lose it. In particular a miner pruned early is one that the whole pass prunes. */
  lemma TwoPassesExactly(round: Round, h: Hotkey, rows: Rows, a: Targets, b: Targets)
    requires GoodRound(round) && a.Keys !! b.Keys && OfRound(round, a) && OfRound(round, b)
    ensures MinerPass(round, h, MinerPass(round, h, rows, a), b) == MinerPass(round, h, rows, a + b)
      <==> !Lost(round, h, rows, a, b)
  {
    var first := rows + Updates(round, h, rows, a);
    if h in round.accepted {
      PresentComposes(round, h, rows, a, b);
    } else if InScoringSet(round, h, rows) {
      if !Pruned(round, h, first, a) {
        KeptComposes(round, h, rows, a, b);
      } else if round.active.None? {
        PrunedTogether(round, h, rows, a, b);
      } else {
        LostExactly(round, h, rows, a, b);
        if InScoringSet(round, h, Retired(round, first)) {
          RetiredComposes(round, h, rows, a, b);
        } else {
          ForgottenStays(round, h, rows, a, b);
        }
      }
    }
  }

  // -- any number of passes ------------------------------------------------------------------

  ghost function PassAll(round: Round, h: Hotkey, rows: Rows, chunks: seq<Targets>): Rows
    decreases |chunks|
  {
    if chunks == [] then rows
    else MinerPass(round, h, PassAll(round, h, rows, chunks[..|chunks| - 1]), chunks[|chunks| - 1])
  }

  ghost function Union(chunks: seq<Targets>): Targets
    decreases |chunks|
  {
    if chunks == [] then map[] else Union(chunks[..|chunks| - 1]) + chunks[|chunks| - 1]
  }

  /** Successive chunks of this round's targets, none resolved twice. */
  ghost predicate Chunks(round: Round, chunks: seq<Targets>)
    decreases |chunks|
  {
    chunks == [] ||
    (&& Chunks(round, chunks[..|chunks| - 1]) && OfRound(round, chunks[|chunks| - 1])
     && Union(chunks[..|chunks| - 1]).Keys !! chunks[|chunks| - 1].Keys)
  }

  /** The miner is lost at some boundary between the chunks. */
  ghost predicate LostAt(round: Round, h: Hotkey, rows: Rows, chunks: seq<Targets>, k: nat) {
    k < |chunks| && Lost(round, h, rows, Union(chunks[..k]), chunks[k])
  }

  ghost predicate NeverLost(round: Round, h: Hotkey, rows: Rows, chunks: seq<Targets>) {
    forall k: nat {:trigger LostAt(round, h, rows, chunks, k)} :: !LostAt(round, h, rows, chunks, k)
  }

  lemma {:induction false} UnionOfRound(round: Round, chunks: seq<Targets>)
    requires Chunks(round, chunks)
    ensures OfRound(round, Union(chunks))
    decreases |chunks|
  {
    if chunks != [] {
      UnionOfRound(round, chunks[..|chunks| - 1]);
    }
  }

  lemma FrontNeverLost(round: Round, h: Hotkey, rows: Rows, chunks: seq<Targets>)
    requires chunks != [] && NeverLost(round, h, rows, chunks)
    ensures NeverLost(round, h, rows, chunks[..|chunks| - 1])
    ensures !Lost(round, h, rows, Union(chunks[..|chunks| - 1]), chunks[|chunks| - 1])
  {
    var front := chunks[..|chunks| - 1];
    forall k: nat ensures !LostAt(round, h, rows, front, k) {
      if k < |front| {
        assert front[..k] == chunks[..k];
        assert !LostAt(round, h, rows, chunks, k);
      }
    }
    assert !LostAt(round, h, rows, chunks, |chunks| - 1);
  }

  lemma PassOverNothing(round: Round, h: Hotkey, rows: Rows)
    ensures MinerPass(round, h, rows, map[]) == rows
  {
    assert rows + Updates(round, h, rows, map[]) == rows;
  }

  /** However many passes a budget makes of one horizon, a miner it never loses ends as one whole pass leaves it. */
  lemma {:induction false} SplitIsWhole(round: Round, h: Hotkey, rows: Rows, chunks: seq<Targets>)
    requires GoodRound(round) && Chunks(round, chunks) && NeverLost(round, h, rows, chunks)
    ensures PassAll(round, h, rows, chunks) == MinerPass(round, h, rows, Union(chunks))
    decreases |chunks|
  {
    if chunks == [] {
      PassOverNothing(round, h, rows);
    } else {
      var front := chunks[..|chunks| - 1];
      FrontNeverLost(round, h, rows, chunks);
      SplitIsWhole(round, h, rows, front);
      UnionOfRound(round, front);
      TwoPassesExactly(round, h, rows, Union(front), chunks[|chunks| - 1]);
    }
  }

  lemma LostIsForgotten(round: Round, h: Hotkey, rows: Rows, a: Targets, b: Targets)
    requires OfRound(round, a) && Lost(round, h, rows, a, b)
    ensures Forgotten(round, h, MinerPass(round, h, rows, a))
    ensures forall c | c in MinerPass(round, h, rows, a) :: c !in round.coordinates
  {
    LostExactly(round, h, rows, a, b);
    var kept := Retired(round, rows + Updates(round, h, rows, a));
    forall c | c in kept ensures c !in round.coordinates {
    }
  }

  lemma {:induction false} ForgottenThrough(round: Round, h: Hotkey, rows: Rows, chunks: seq<Targets>, k: nat)
    requires k <= |chunks| && Forgotten(round, h, PassAll(round, h, rows, chunks[..k]))
    ensures PassAll(round, h, rows, chunks) == PassAll(round, h, rows, chunks[..k])
    decreases |chunks|
  {
    if k == |chunks| {
      assert chunks[..k] == chunks;
    } else {
      var front := chunks[..|chunks| - 1];
      assert front[..k] == chunks[..k];
      ForgottenThrough(round, h, rows, front, k);
    }
  }

  lemma {:induction false} UnionGrows(chunks: seq<Targets>, k: nat)
    requires k < |chunks|
    ensures chunks[k].Keys <= Union(chunks).Keys && Union(chunks[..k]).Keys <= Union(chunks).Keys
    decreases |chunks|
  {
    var front := chunks[..|chunks| - 1];
    if k < |front| {
      assert front[..k] == chunks[..k];
      UnionGrows(front, k);
    }
  }

  lemma {:induction false} PrefixChunks(round: Round, chunks: seq<Targets>, k: nat)
    requires k <= |chunks| && Chunks(round, chunks)
    ensures Chunks(round, chunks[..k])
    decreases |chunks|
  {
    if k == |chunks| {
      assert chunks[..k] == chunks;
    } else {
      var front := chunks[..|chunks| - 1];
      assert front[..k] == chunks[..k];
      PrefixChunks(round, front, k);
    }
  }

  /** The first boundary that loses the miner. */
  lemma {:induction false} FirstLost(round: Round, h: Hotkey, rows: Rows, chunks: seq<Targets>, j: nat) returns (k: nat)
    requires LostAt(round, h, rows, chunks, j)
    ensures k <= j && LostAt(round, h, rows, chunks, k) && NeverLost(round, h, rows, chunks[..k])
    decreases j
  {
    if i: nat :| i < j && LostAt(round, h, rows, chunks, i) {
      k := FirstLost(round, h, rows, chunks, i);
    } else {
      k := j;
      forall i: nat ensures !LostAt(round, h, rows, chunks[..j], i) {
        if i < j {
          assert chunks[..j][..i] == chunks[..i];
          assert !LostAt(round, h, rows, chunks, i);
        }
      }
    }
  }

  lemma RetiredRowMissing(round: Round, h: Hotkey, rows: Rows, a: Targets, all: Targets, c: Coordinate)
    requires GoodRound(round) && round.active.Some? && InScoringSet(round, h, rows)
    requires c in all && c !in round.active.value && h !in round.accepted
    ensures c in MinerPass(round, h, rows, all)
  {
  }

  /** And a miner that some boundary loses never does: it ends without the zero rows the whole pass gives it on the
      retired coordinates that were left. */
  lemma LostNeverRecovers(round: Round, h: Hotkey, rows: Rows, chunks: seq<Targets>, j: nat)
    requires GoodRound(round) && Chunks(round, chunks) && LostAt(round, h, rows, chunks, j)
    ensures PassAll(round, h, rows, chunks) != MinerPass(round, h, rows, Union(chunks))
  {
    var k := FirstLost(round, h, rows, chunks, j);
    PrefixChunks(round, chunks, k);
    SplitIsWhole(round, h, rows, chunks[..k]);
    UnionOfRound(round, chunks[..k]);
    LostIsForgotten(round, h, rows, Union(chunks[..k]), chunks[k]);
    ForgottenThrough(round, h, rows, chunks, k);
    UnionGrows(chunks, k);
    UnionOfRound(round, chunks);
    var c :| c in chunks[k] && c !in round.active.value;
    RetiredRowMissing(round, h, rows, Union(chunks[..k]), Union(chunks), c);
  }

  /** Exactly when a budget-split horizon ends where one whole pass does, for each miner. */
  lemma SplitIsWholeExactly(round: Round, h: Hotkey, rows: Rows, chunks: seq<Targets>)
    requires GoodRound(round) && Chunks(round, chunks)
    ensures PassAll(round, h, rows, chunks) == MinerPass(round, h, rows, Union(chunks)) <==>
      NeverLost(round, h, rows, chunks)
  {
    if NeverLost(round, h, rows, chunks) {
      SplitIsWhole(round, h, rows, chunks);
    } else {
      var j: nat :| LostAt(round, h, rows, chunks, j);
      LostNeverRecovers(round, h, rows, chunks, j);
    }
  }

  /** The pass over chunk `k` prunes the miner. */
  ghost predicate PrunedAt(round: Round, h: Hotkey, rows: Rows, chunks: seq<Targets>, k: nat) {
    k < |chunks| &&
    var before := PassAll(round, h, rows, chunks[..k]);
    Pruned(round, h, before + Updates(round, h, before, chunks[k]), chunks[k])
  }

  ghost predicate NeverPruned(round: Round, h: Hotkey, rows: Rows, chunks: seq<Targets>) {
    forall k: nat {:trigger PrunedAt(round, h, rows, chunks, k)} :: !PrunedAt(round, h, rows, chunks, k)
  }

  lemma FrontNeverPruned(round: Round, h: Hotkey, rows: Rows, chunks: seq<Targets>)
    requires chunks != [] && NeverPruned(round, h, rows, chunks)
    ensures NeverPruned(round, h, rows, chunks[..|chunks| - 1])
    ensures var n := |chunks| - 1;
      var before := PassAll(round, h, rows, chunks[..n]);
      !Pruned(round, h, before + Updates(round, h, before, chunks[n]), chunks[n])
  {
    var n := |chunks| - 1;
    forall k: nat ensures !PrunedAt(round, h, rows, chunks[..n], k) {
      if k < n {
        assert chunks[..n][..k] == chunks[..k];
        assert !PrunedAt(round, h, rows, chunks, k);
      }
    }
    assert !PrunedAt(round, h, rows, chunks, n);
  }

  /** A scored miner that no pass prunes ends with exactly one observation on each coordinate of all the chunks. */
  lemma {:induction false} UnprunedTakesAll(round: Round, h: Hotkey, rows: Rows, chunks: seq<Targets>)
    requires Chunks(round, chunks) && InScoringSet(round, h, rows) && NeverPruned(round, h, rows, chunks)
    ensures PassAll(round, h, rows, chunks) == rows + Updates(round, h, rows, Union(chunks))
    decreases |chunks|
  {
    if chunks != [] {
      var n := |chunks| - 1;
      FrontNeverPruned(round, h, rows, chunks);
      UnprunedTakesAll(round, h, rows, chunks[..n]);
      StillScored(round, h, rows, Union(chunks[..n]));
      UpdatesCompose(round, h, rows, Union(chunks[..n]), chunks[n]);
    }
  }

  /** A round whose coordinates all pay, or all are retired, or whose schema retires none, loses no miner. */
  ghost predicate Unmixed(round: Round) {
    round.active.None? || round.coordinates <= round.active.value || round.coordinates !! round.active.value
  }

  lemma UnmixedLosesNone(round: Round, h: Hotkey, rows: Rows, chunks: seq<Targets>)
    requires GoodRound(round) && Chunks(round, chunks) && Unmixed(round)
    ensures NeverLost(round, h, rows, chunks)
  {
    forall k: nat ensures !LostAt(round, h, rows, chunks, k) {
      if k < |chunks| {
        PrefixChunks(round, chunks, k);
        PrefixChunks(round, chunks, k + 1);
        assert chunks[..k + 1][..k] == chunks[..k];
        UnionOfRound(round, chunks[..k]);
      }
    }
  }

  const PAYING := Coordinate(1, 30, "risk")
  const RETIRED := Coordinate(2, 30, "risk")

  ghost function MixedRound(): Round {
    Round(map[], {"h"}, {PAYING, RETIRED}, Some({PAYING}), map["risk" := Spec(0, 10, true, 1.0, false)], 0.5)
  }

  lemma TwoChunks(round: Round, a: Targets, b: Targets)
    requires OfRound(round, a) && OfRound(round, b) && a.Keys !! b.Keys
    ensures Chunks(round, [a, b]) && Union([a, b][..1]) == a
  {
    assert [a, b][..1] == [a] && [a][..0] == [];
    assert Chunks(round, []) && Union([]) == map[];
    assert Chunks(round, [a]);
    assert Union([a]) == a by {
      assert Union([a]) == Union([]) + a;
    }
  }

  lemma LostInMixedRound()
    ensures Lost(MixedRound(), "h", map[PAYING := Ema(0.01, 5)], map[PAYING := 7], map[RETIRED := 7])
  {
    var round := MixedRound();
    var rows: Rows, a: Targets, b: Targets := map[PAYING := Ema(0.01, 5)], map[PAYING := 7], map[RETIRED := 7];
    assert PAYING in rows && PAYING in a;
    assert (rows + Updates(round, "h", rows, a))[PAYING].value == 0.005;
    assert RETIRED in b && RETIRED !in round.active.value;
  }

  /** A concrete lost miner: absent, remembered only on the paying coordinate, pruned on it by the first of two
      passes; the second pass, on a retired coordinate of the same round, no longer scores it. */
  lemma SomeMinerIsLost()
    ensures exists round, h, rows, chunks ::
      GoodRound(round) && Chunks(round, chunks)
          && PassAll(round, h, rows, chunks) != MinerPass(round, h, rows, Union(chunks))
  {
    var rows: Rows, a: Targets, b: Targets := map[PAYING := Ema(0.01, 5)], map[PAYING := 7], map[RETIRED := 7];
    var chunks := [a, b];
    TwoChunks(MixedRound(), a, b);
    LostInMixedRound();
    assert LostAt(MixedRound(), "h", rows, chunks, 1);
    LostNeverRecovers(MixedRound(), "h", rows, chunks, 1);
  }
}
