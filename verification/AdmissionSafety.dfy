/** What admission guarantees under every interleaving with round closure. */
module AdmissionSafety {
  import opened Wrappers
  import opened Admission

  /** Counters within their caps; an accepted row holds a bundle and nonce that open its commit hash. */
  ghost predicate RowSafe(db: Db, cfg: Config, h: Hotkey) {
    h in db.rows ==>
      var row := db.rows[h];
      && row.commitHash.Some? && row.commits <= cfg.maxCommits && row.attempts <= cfg.maxReveals
      && (row.verdict == RowAccepted ==>
            && row.bundle.Some? && row.nonce.Some? && FromHex(row.nonce.value).Some?
            && row.commitHash.value == Opening(row.bundle.value, FromHex(row.nonce.value).value, h))
  }

  /** Nothing is frozen while the round is open; afterwards exactly the accepted bundles are. */
  ghost predicate FrozenFits(db: Db) {
    db.frozen == if db.state == RoundOpen then map[] else AcceptedBundles(db)
  }

  ghost predicate Safe(db: Db, cfg: Config) {
    FrozenFits(db) && forall h {:trigger RowSafe(db, cfg, h)} :: RowSafe(db, cfg, h)
  }

  ghost predicate RowExtends(a: Db, b: Db, h: Hotkey) {
    h in a.rows ==>
      && h in b.rows && a.rows[h].commits <= b.rows[h].commits && a.rows[h].attempts <= b.rows[h].attempts
      && (a.rows[h].verdict == RowAccepted ==> b.rows[h] == a.rows[h].(attempts := b.rows[h].attempts))
  }

  /** What a later state keeps: an accepted row is final, counters never fall, a closed round is frozen. */
  ghost predicate Extends(a: Db, b: Db) {
    && (a.state != RoundOpen ==> b.state != RoundOpen && b.rows == a.rows && b.frozen == a.frozen)
    && forall h {:trigger RowExtends(a, b, h)} :: RowExtends(a, b, h)
  }

  lemma ExtendsTransitive(a: Db, b: Db, c: Db)
    requires Extends(a, b) && Extends(b, c)
    ensures Extends(a, c)
  {
    forall h ensures RowExtends(a, c, h) {
      assert RowExtends(a, b, h) && RowExtends(b, c, h);
    }
  }

  // -- each transaction ---------------------------------------------------------------

  lemma SameRowsSafe(db: Db, d: Db, cfg: Config)
    requires Safe(db, cfg) && d.rows == db.rows && FrozenFits(d)
    requires db.state != RoundOpen ==> d.state != RoundOpen && d.frozen == db.frozen
    ensures Safe(d, cfg) && Extends(db, d)
  {
    forall h ensures RowSafe(d, cfg, h) && RowExtends(db, d, h) {
      assert RowSafe(db, cfg, h);
    }
  }

  lemma CloseSafe(db: Db, cfg: Config, c: Closure)
    requires Safe(db, cfg)
    ensures var d := Close(db, c);
      Safe(d, cfg) && Extends(db, d) && d.rows == db.rows && d.state != RoundOpen
  {
    var d := Close(db, c);
    assert AcceptedBundles(d) == AcceptedBundles(db);
    SameRowsSafe(db, d, cfg);
  }

  lemma {:induction false} CloseAllSafe(db: Db, cfg: Config, closures: seq<Closure>)
    requires Safe(db, cfg)
    ensures var d := CloseAll(db, closures);
      Safe(d, cfg) && Extends(db, d) && d.rows == db.rows
    decreases |closures|
  {
    if closures == [] {
      forall h ensures RowExtends(db, db, h) {
      }
    } else {
      CloseSafe(db, cfg, closures[0]);
      CloseAllSafe(Close(db, closures[0]), cfg, closures[1..]);
      ExtendsTransitive(db, Close(db, closures[0]), CloseAll(db, closures));
    }
  }

  ghost predicate Moves(a: World, b: World, cfg: Config) {
    Safe(b.db, cfg) && Extends(a.db, b.db)
  }

  lemma TickSafe(w: World, cfg: Config)
    requires Safe(w.db, cfg)
    ensures Moves(w, Tick(w), cfg) && Tick(w).db.rows == w.db.rows
  {
    CloseAllSafe(w.db, cfg, []);
    if w.ticks != [] {
      CloseAllSafe(w.db, cfg, w.ticks[0]);
    }
  }

  lemma MovesTwice(a: World, b: World, c: World, cfg: Config)
    requires Moves(a, b, cfg) && Moves(b, c, cfg)
    ensures Moves(a, c, cfg)
  {
    ExtendsTransitive(a.db, b.db, c.db);
  }

  /** Replacing one open round's row by a safe one that keeps what an accepted row had. */
  lemma RowReplaced(db: Db, cfg: Config, h: Hotkey, d: Db)
    requires Safe(db, cfg) && db.state == RoundOpen && d == db.(rows := d.rows) && h in d.rows
    requires d.rows == db.rows[h := d.rows[h]]
    requires RowSafe(d, cfg, h) && RowExtends(db, d, h)
    ensures Safe(d, cfg) && Extends(db, d)
  {
    forall k ensures RowSafe(d, cfg, k) && RowExtends(db, d, k) {
      assert RowSafe(db, cfg, k);
    }
  }

  lemma RecordCommitSafe(db: Db, cfg: Config, h: Hotkey, hash: Digest)
    requires Safe(db, cfg) && (h !in db.rows ==> cfg.maxCommits > 0)
    ensures var d := RecordCommit(db, h, hash, cfg.maxCommits).0;
      Safe(d, cfg) && Extends(db, d)
    ensures RecordCommit(db, h, hash, cfg.maxCommits).1 ==>
      CommittedHash(RecordCommit(db, h, hash, cfg.maxCommits).0, h) == Some(hash)
  {
    var d := RecordCommit(db, h, hash, cfg.maxCommits).0;
    assert RowSafe(db, cfg, h);
    if d != db {
      RowReplaced(db, cfg, h, d);
    } else {
      CloseAllSafe(db, cfg, []);
    }
  }

  lemma RecordAttemptSafe(db: Db, cfg: Config, h: Hotkey)
    requires Safe(db, cfg)
    ensures var d := RecordRevealAttempt(db, h, cfg.maxReveals).0;
      Safe(d, cfg) && Extends(db, d) && CommittedHash(d, h) == CommittedHash(db, h)
  {
    var d := RecordRevealAttempt(db, h, cfg.maxReveals).0;
    assert RowSafe(db, cfg, h);
    if d != db {
      RowReplaced(db, cfg, h, d);
    } else {
      CloseAllSafe(db, cfg, []);
    }
  }

  /** The bundle and nonce open this commit hash for this hotkey. */
  ghost predicate Opens(committed: Option<Digest>, bundle: string, nonce: string, h: Hotkey) {
    FromHex(nonce).Some? && committed == Some(Opening(bundle, FromHex(nonce).value, h))
  }

  lemma RecordRevealSafe(db: Db, cfg: Config, h: Hotkey, bundle: string, nonce: string, rejection: Option<Code>)
    requires Safe(db, cfg) && h in db.rows
    requires rejection.None? && db.rows[h].verdict != RowAccepted ==> Opens(db.rows[h].commitHash, bundle, nonce, h)
    ensures var d := RecordReveal(db, h, bundle, nonce, rejection);
      && Safe(d.0, cfg) && Extends(db, d.0)
      && (rejection.None? && d.1 ==> Durable(d.0, h, bundle, nonce))
  {
    var d := RecordReveal(db, h, bundle, nonce, rejection).0;
    assert RowSafe(db, cfg, h);
    if d != db {
      RowReplaced(db, cfg, h, d);
    } else {
      CloseAllSafe(db, cfg, []);
    }
  }

  // -- an accepted reply is durable ----------------------------------------------------

  /** This exact bundle and nonce is the accepted row, and is frozen once the round is closed. */
  ghost predicate Durable(db: Db, h: Hotkey, bundle: string, nonce: string) {
    && h in db.rows && db.rows[h].verdict == RowAccepted
    && db.rows[h].bundle == Some(bundle) && db.rows[h].nonce == Some(nonce)
    && (db.state != RoundOpen ==> h in db.frozen && db.frozen[h] == bundle)
  }

  lemma StaysDurable(a: Db, b: Db, cfg: Config, h: Hotkey, bundle: string, nonce: string)
    requires Durable(a, h, bundle, nonce) && Extends(a, b) && Safe(b, cfg)
    ensures Durable(b, h, bundle, nonce)
  {
    assert RowExtends(a, b, h);
  }

  /** In a safe state, the retry identity read back is exactly the durable one. */
  lemma AcceptedIsDurable(db: Db, cfg: Config, h: Hotkey, bundle: string, nonce: string)
    requires Safe(db, cfg)
    ensures AcceptedReveal(db, h) == Some((bundle, nonce)) <==> Durable(db, h, bundle, nonce)
  {
    assert RowSafe(db, cfg, h);
  }

  lemma ValidOpens(cfg: Config, m: RevealMessage, windows: Windows, committed: Option<Digest>)
    requires ValidateReveal(cfg, m, windows, committed).None?
    ensures Opens(committed, m.bundle, m.nonce, m.hotkey)
  {
  }

  /** What the admission step knows when it lets a reveal through. */
  ghost predicate LetThrough(db: Db, committed: Option<Digest>, m: RevealMessage) {
    Durable(db, m.hotkey, m.bundle, m.nonce)
    || (CommittedHash(db, m.hotkey) == committed && Opens(committed, m.bundle, m.nonce, m.hotkey))
  }

  lemma AdmitSafe(w: World, cfg: Config, m: RevealMessage, committed: Option<Digest>)
    requires Safe(w.db, cfg) && cfg.windows.Some? && committed == CommittedHash(w.db, m.hotkey)
    ensures var r := AdmitRun(w, cfg, m, committed);
      && Moves(w, r.0, cfg) && CommittedHash(r.0.db, m.hotkey) == committed
      && (r.1.None? ==> LetThrough(r.0.db, committed, m))
  {
    CloseAllSafe(w.db, cfg, []);
    var windows := cfg.windows.value;
    if ValidateReveal(cfg, m, windows, committed).None? {
      ValidOpens(cfg, m, windows, committed);
    }
    if InRevealWindow(m, windows) && committed.Some? {
      var before := Tick(w);
      TickSafe(w, cfg);
      RecordAttemptSafe(before.db, cfg, m.hotkey);
      var charged := RecordRevealAttempt(before.db, m.hotkey, cfg.maxReveals);
      var after := before.(db := charged.0);
      MovesTwice(w, before, after, cfg);
      if !charged.1 {
        var read := Tick(after);
        TickSafe(after, cfg);
        MovesTwice(w, after, read, cfg);
        AcceptedIsDurable(read.db, cfg, m.hotkey, m.bundle, m.nonce);
        TickSafe(read, cfg);
        MovesTwice(w, read, Tick(read), cfg);
      }
    }
  }

  lemma SettleSafe(w: World, cfg: Config, m: RevealMessage, rejection: Option<Code>, committed: Option<Digest>)
    requires Safe(w.db, cfg) && committed.Some? && CommittedHash(w.db, m.hotkey) == committed
    requires rejection.None? ==> LetThrough(w.db, committed, m)
    ensures var r := SettleRun(w, m, rejection);
      Moves(w, r.0, cfg) && (r.1.Accepted? ==> Durable(r.0.db, m.hotkey, m.bundle, m.nonce))
  {
    var before := Tick(w);
    TickSafe(w, cfg);
    RecordRevealSafe(before.db, cfg, m.hotkey, m.bundle, m.nonce, rejection);
    var done := RecordReveal(before.db, m.hotkey, m.bundle, m.nonce, rejection);
    var after := before.(db := done.0);
    MovesTwice(w, before, after, cfg);
    if rejection.None? && !done.1 {
      TickSafe(after, cfg);
      MovesTwice(w, after, Tick(after), cfg);
      AcceptedIsDurable(Tick(after).db, cfg, m.hotkey, m.bundle, m.nonce);
    }
  }

  /** Whatever the tick thread does in between, a reveal leaves a safe state, undoes nothing, and is answered
      `accepted` only if its exact bundle and nonce is then durable. */
  lemma RevealSafe(w: World, cfg: Config, m: RevealMessage)
    requires Safe(w.db, cfg)
    ensures var r := RevealRun(w, cfg, m);
      Moves(w, r.0, cfg) && (r.1.Accepted? ==> Durable(r.0.db, m.hotkey, m.bundle, m.nonce))
  {
    CloseAllSafe(w.db, cfg, []);
    if RevealGate(cfg, m).None? {
      var first, second := Tick(w), Tick(Tick(w));
      TickSafe(w, cfg);
      TickSafe(first, cfg);
      MovesTwice(w, first, second, cfg);
      var committed := CommittedHash(second.db, m.hotkey);
      var open := InRevealWindow(m, cfg.windows.value);
      AcceptedIsDurable(first.db, cfg, m.hotkey, m.bundle, m.nonce);
      if open && AcceptedReveal(first.db, m.hotkey) == Some((m.bundle, m.nonce)) {
        StaysDurable(first.db, second.db, cfg, m.hotkey, m.bundle, m.nonce);
      } else {
        AdmitSafe(second, cfg, m, committed);
        var admitted := AdmitRun(second, cfg, m, committed);
        MovesTwice(w, second, admitted.0, cfg);
        if committed.Some? && open && admitted.1 != Some(RateLimited) {
          SettleSafe(admitted.0, cfg, m, admitted.1, committed);
          MovesTwice(w, admitted.0, SettleRun(admitted.0, m, admitted.1).0, cfg);
        }
      }
    }
  }

  /** A commit is answered `accepted` only if its hash is then the committed one. */
  lemma CommitSafe(w: World, cfg: Config, m: CommitMessage)
    requires Safe(w.db, cfg)
    ensures var r := CommitRun(w, cfg, m);
      Moves(w, r.0, cfg) && (r.1.Accepted? ==> CommittedHash(r.0.db, m.hotkey) == Some(m.hash))
  {
    CloseAllSafe(w.db, cfg, []);
    if CommitGate(cfg, m).None? {
      var counted := Tick(w);
      TickSafe(w, cfg);
      var full := CommitCount(counted.db, m.hotkey) >= cfg.maxCommits;
      var read := if full then Tick(counted) else counted;
      TickSafe(counted, cfg);
      MovesTwice(w, counted, Tick(counted), cfg);
      assert read.db.rows == w.db.rows;
      TickSafe(read, cfg);
      var before := Tick(read);
      MovesTwice(w, read, before, cfg);
      if !(full && !Same(CommittedHash(read.db, m.hotkey), m.hash)) && ValidateCommit(cfg, m, cfg.windows.value).None? {
        RecordCommitSafe(before.db, cfg, m.hotkey, m.hash);
        var after := before.(db := RecordCommit(before.db, m.hotkey, m.hash, cfg.maxCommits).0);
        MovesTwice(w, before, after, cfg);
        TickSafe(after, cfg);
        MovesTwice(w, after, Tick(after), cfg);
      }
    }
  }

  // -- over whole runs ---------------------------------------------------------------------

  datatype Event = CommitEvent(commit: CommitMessage) | RevealEvent(shown: RevealMessage) | TickEvent

  ghost function Handle(w: World, cfg: Config, e: Event): (World, Option<Reply>) {
    match e
    case CommitEvent(m) => var r := CommitRun(w, cfg, m); (r.0, Some(r.1))
    case RevealEvent(m) => var r := RevealRun(w, cfg, m); (r.0, Some(r.1))
    case TickEvent => (Tick(w), None)
  }

  ghost function HandleAll(w: World, cfg: Config, events: seq<Event>): World
    decreases |events|
  {
    if events == [] then w
    else Handle(HandleAll(w, cfg, events[..|events| - 1]), cfg, events[|events| - 1]).0
  }

  lemma HandleSafe(w: World, cfg: Config, e: Event)
    requires Safe(w.db, cfg)
    ensures Moves(w, Handle(w, cfg, e).0, cfg)
  {
    match e
    case CommitEvent(m) => CommitSafe(w, cfg, m);
    case RevealEvent(m) => RevealSafe(w, cfg, m);
    case TickEvent => TickSafe(w, cfg);
  }

  const EMPTY := Db(RoundOpen, map[], map[])

  lemma EmptySafe(cfg: Config)
    ensures Safe(EMPTY, cfg)
  {
    forall h ensures RowSafe(EMPTY, cfg, h) {
    }
  }

  lemma {:induction false} RunSafe(ticks: seq<seq<Closure>>, cfg: Config, events: seq<Event>, k: nat)
    requires k <= |events|
    ensures Moves(HandleAll(World(EMPTY, ticks), cfg, events[..k]), HandleAll(World(EMPTY, ticks), cfg, events), cfg)
    decreases |events|
  {
    var start := World(EMPTY, ticks);
    EmptySafe(cfg);
    if k == |events| {
      assert events[..k] == events;
      if k > 0 {
        RunSafe(ticks, cfg, events[..k - 1], k - 1);
        HandleSafe(HandleAll(start, cfg, events[..k - 1]), cfg, events[k - 1]);
      }
      CloseAllSafe(HandleAll(start, cfg, events).db, cfg, []);
    } else {
      var front := events[..|events| - 1];
      assert front[..k] == events[..k];
      RunSafe(ticks, cfg, front, k);
      HandleSafe(HandleAll(start, cfg, front), cfg, events[|events| - 1]);
      MovesTwice(HandleAll(start, cfg, events[..k]), HandleAll(start, cfg, front), HandleAll(start, cfg, events), cfg);
    }
  }

  /** Over every run of commits, reveals and ticks, and every way the ticks fall between storage calls: a reveal
      once answered `accepted` is the accepted row, opens its commit, and is what scoring reads, ever after. */
  lemma AcceptedForever(ticks: seq<seq<Closure>>, cfg: Config, events: seq<Event>, k: nat)
    requires k < |events| && events[k].RevealEvent?
    requires Handle(HandleAll(World(EMPTY, ticks), cfg, events[..k]), cfg, events[k]).1 == Some(Accepted)
    ensures var m, db := events[k].shown, HandleAll(World(EMPTY, ticks), cfg, events).db;
      && Durable(db, m.hotkey, m.bundle, m.nonce) && Opens(db.rows[m.hotkey].commitHash, m.bundle, m.nonce, m.hotkey)
      && m.hotkey in ScoringBundles(db) && ScoringBundles(db)[m.hotkey] == m.bundle
  {
    var m := events[k].shown;
    var before := HandleAll(World(EMPTY, ticks), cfg, events[..k]);
    var upon := HandleAll(World(EMPTY, ticks), cfg, events[..k + 1]);
    var last := HandleAll(World(EMPTY, ticks), cfg, events);
    assert events[..k + 1][..k] == events[..k];
    assert events[..k + 1][..k + 1] == events[..k + 1];
    RunSafe(ticks, cfg, events[..k], k);
    assert events[..k][..k] == events[..k];
    RevealSafe(before, cfg, m);
    RunSafe(ticks, cfg, events, k + 1);
    StaysDurable(upon.db, last.db, cfg, m.hotkey, m.bundle, m.nonce);
    assert RowSafe(last.db, cfg, m.hotkey);
  }

  /** In every reachable state the bundles scoring reads are exactly the accepted ones, each opening its commit
      hash, and no counter is above its cap; once the round is closed nothing changes again. */
  lemma ScoringReadsTheAccepted(ticks: seq<seq<Closure>>, cfg: Config, events: seq<Event>, k: nat, h: Hotkey)
    requires k <= |events|
    ensures var earlier, db := HandleAll(World(EMPTY, ticks), cfg, events[..k]).db,
        HandleAll(World(EMPTY, ticks), cfg, events).db;
      && ScoringBundles(db) == AcceptedBundles(db) && RowSafe(db, cfg, h)
      && (earlier.state != RoundOpen ==> db.rows == earlier.rows && ScoringBundles(db) == ScoringBundles(earlier))
  {
    RunSafe(ticks, cfg, events, k);
  }

  // -- when a reveal is admitted ----------------------------------------------------------------

  /** With no closure in between, an open round admits a reveal past the gate exactly when it is in its window and
      either repeats the accepted one, or opens the commit with budget left and no other reveal accepted before. */
  lemma AdmittedExactly(db: Db, cfg: Config, m: RevealMessage)
    requires Safe(db, cfg) && db.state == RoundOpen && RevealGate(cfg, m).None?
    ensures RevealRun(World(db, []), cfg, m).1 == Accepted <==>
      && InRevealWindow(m, cfg.windows.value)
      && (Durable(db, m.hotkey, m.bundle, m.nonce) ||
          (&& m.hotkey in db.rows && db.rows[m.hotkey].verdict != RowAccepted
           && db.rows[m.hotkey].attempts < cfg.maxReveals
           && ValidateReveal(cfg, m, cfg.windows.value, db.rows[m.hotkey].commitHash).None?))
  {
    AcceptedIsDurable(db, cfg, m.hotkey, m.bundle, m.nonce);
    assert RowSafe(db, cfg, m.hotkey);
  }
}
