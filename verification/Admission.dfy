/** Commits and reveals of one round, admitted while the tick thread may close the round between any two
    storage calls. */
module Admission {
  import opened Wrappers

  type Hotkey = string

  const CURRENT_VERSION_KEY := 2044
  const COMMIT_NONCE_BYTES := 16
  const MAX_NONCE_BYTES := 32
  const MAX_REVEAL_BUNDLE_BYTES := 262_144
  const COMMIT_HASH_HEX_CHARS := 64

  datatype Code = UnknownSchema | MalformedBundle | RoundUnavailable | RateLimited | LateCommit | LateReveal
    | VersionMismatch | NoCommit | HashMismatch | PayloadTooLarge | OutOfBounds | InvalidTicker

  /** A commit hash: the one hash of a bundle, nonce and hotkey, or any other text. */
  datatype Digest = Opening(bundle: string, nonce: seq<nat>, hotkey: Hotkey) | OtherText(text: string)

  datatype RoundState = RoundOpen | RoundRevealed | RoundPartiallyScored | RoundClosed
  datatype RowVerdict = RowCommitted | RowAccepted | RowRejected
  datatype Row = Row(commitHash: Option<Digest>, commits: nat, attempts: nat, verdict: RowVerdict,
                     bundle: Option<string>, nonce: Option<string>, rejection: Option<Code>)

  /** One round's tables: its state, a submission row a hotkey, and the frozen consensus bundles. */
  datatype Db = Db(state: RoundState, rows: map<Hotkey, Row>, frozen: map<Hotkey, string>)

  datatype Windows = Windows(commitOpen: int, commitClose: int, revealOpen: int, revealClose: int)
  datatype Config = Config(schema: string, registered: bool, windows: Option<Windows>, universe: bool,
                           maxCommits: nat, maxReveals: nat)

  /** `canonical` says whether the round ID is the canonical date. */
  datatype CommitMessage = CommitMessage(hotkey: Hotkey, schema: string, canonical: bool, version: int, hash: Digest,
                                         now: int)

  /** `bundleBytes` is the bundle's UTF-8 length, if it can be encoded; `bundleRejection` is the schema's own verdict
      on the bundle. */
  datatype RevealMessage = RevealMessage(hotkey: Hotkey, schema: string, canonical: bool, version: int, bundle: string,
                                         nonce: string, now: int, bundleBytes: Option<nat>,
                                         bundleRejection: Option<Code>)

  datatype Reply = Accepted | Rejected(code: Code)

  // -- text checks ---------------------------------------------------------------

  function HexDigit(c: char): Option<nat> {
    if '0' <= c <= '9' then Some(c as int - '0' as int)
    else if 'a' <= c <= 'f' then Some(c as int - 'a' as int + 10)
    else if 'A' <= c <= 'F' then Some(c as int - 'A' as int + 10)
    else None
  }

  predicate IsSpace(c: char) {
    c == ' ' || '\t' <= c <= '\r'
  }

  /** Python's bytes.fromhex: pairs of hexadecimal digits, with white space allowed between the pairs. */
  function FromHex(s: string): Option<seq<nat>> {
    if s == "" then Some([])
    else if IsSpace(s[0]) then FromHex(s[1..])
    else if |s| < 2 || HexDigit(s[0]).None? || HexDigit(s[1]).None? then None
    else
      var rest := FromHex(s[2..]);
      if rest.None? then None else Some([HexDigit(s[0]).value * 16 + HexDigit(s[1]).value] + rest.value)
  }

  predicate Lower(s: string) {
    forall i | 0 <= i < |s| :: !('A' <= s[i] <= 'Z')
  }

  predicate IsHexDigest(d: Digest) {
    d.OtherText? ==> |d.text| == COMMIT_HASH_HEX_CHARS && Lower(d.text) && FromHex(d.text).Some?
  }

  // -- storage transactions, each atomic --------------------------------------------

  function Same(a: Option<Digest>, b: Digest): bool {
    a == Some(b)
  }

  /** The last-wins, capped commit; the answer says whether `hash` is now the committed one. */
  function RecordCommit(db: Db, h: Hotkey, hash: Digest, max: nat): (Db, bool) {
    if db.state != RoundOpen then (db, false)
    else if h !in db.rows then (db.(rows := db.rows[h := Row(Some(hash), 1, 0, RowCommitted, None, None, None)]), true)
    else
      var row := db.rows[h];
      if !Same(row.commitHash, hash) && row.verdict != RowAccepted && row.commits < max then
        (db.(rows := db.rows[h := row.(commitHash := Some(hash), commits := row.commits + 1,
                                       verdict := RowCommitted)]), true)
      else (db, Same(row.commitHash, hash))
  }

  function RecordRevealAttempt(db: Db, h: Hotkey, max: nat): (Db, bool) {
    if h in db.rows && db.rows[h].commitHash.Some? && db.state == RoundOpen && db.rows[h].attempts < max then
      (db.(rows := db.rows[h := db.rows[h].(attempts := db.rows[h].attempts + 1)]), true)
    else (db, false)
  }

  function AcceptedReveal(db: Db, h: Hotkey): Option<(string, string)> {
    if h in db.rows && db.rows[h].verdict == RowAccepted && db.rows[h].bundle.Some? && db.rows[h].nonce.Some?
       && (db.state == RoundOpen || (h in db.frozen && db.frozen[h] == db.rows[h].bundle.value))
    then Some((db.rows[h].bundle.value, db.rows[h].nonce.value))
    else None
  }

  function CommittedHash(db: Db, h: Hotkey): Option<Digest> {
    if h in db.rows then db.rows[h].commitHash else None
  }

  function CommitCount(db: Db, h: Hotkey): nat {
    if h in db.rows then db.rows[h].commits else 0
  }

  function RecordReveal(db: Db, h: Hotkey, bundle: string, nonce: string, rejection: Option<Code>): (Db, bool) {
    var verdict := if rejection.None? then RowAccepted else RowRejected;
    if db.state != RoundOpen then (db, false)
    else if h !in db.rows then
      (db.(rows := db.rows[h := Row(None, 0, 0, verdict, Some(bundle), Some(nonce), rejection)]), true)
    else
      var row := db.rows[h];
      if row.verdict == RowAccepted then (db, false)
      else if row.verdict == verdict && row.bundle == Some(bundle) && row.nonce == Some(nonce)
          && row.rejection == rejection
      then (db, false)
      else
        (db.(rows := db.rows[h := row.(verdict := verdict, bundle := Some(bundle), nonce := Some(nonce),
                                       rejection := rejection)]), true)
  }

  function AcceptedBundles(db: Db): map<Hotkey, string> {
    map h | h in db.rows && db.rows[h].verdict == RowAccepted && db.rows[h].bundle.Some? :: db.rows[h].bundle.value
  }

  /** What scoring reads: the frozen bundles after closure, the live accepted ones before it. */
  function ScoringBundles(db: Db): map<Hotkey, string> {
    if db.state != RoundOpen then db.frozen else AcceptedBundles(db)
  }

  // -- closure ------------------------------------------------------------------------

  datatype ClosingState = ToRevealed | ToPartiallyScored | ToClosed
  datatype Closure = Publish | SetState(state: ClosingState)

  function SnapshotIfOpen(db: Db): Db {
    if db.state != RoundOpen || db.frozen != map[] then db else db.(frozen := AcceptedBundles(db))
  }

  function Close(db: Db, c: Closure): Db {
    var s := SnapshotIfOpen(db);
    match c
    case Publish => if s.state == RoundOpen then s.(state := RoundRevealed) else s
    case SetState(ToRevealed) => s.(state := RoundRevealed)
    case SetState(ToPartiallyScored) => s.(state := RoundPartiallyScored)
    case SetState(ToClosed) => s.(state := RoundClosed)
  }

  function CloseAll(db: Db, closures: seq<Closure>): Db
    decreases |closures|
  {
    if closures == [] then db else CloseAll(Close(db, closures[0]), closures[1..])
  }

  /** The tables, and what the tick thread will do before each coming storage call. */
  datatype World = World(db: Db, ticks: seq<seq<Closure>>)

  function Tick(w: World): World {
    if w.ticks == [] then w else World(CloseAll(w.db, w.ticks[0]), w.ticks[1..])
  }

  // -- the handlers ------------------------------------------------------------------------

  function ValidateCommit(cfg: Config, m: CommitMessage, windows: Windows): Option<Code> {
    if !m.canonical then Some(MalformedBundle)
    else if m.version != CURRENT_VERSION_KEY then Some(VersionMismatch)
    else if !cfg.registered then Some(UnknownSchema)
    else if !(windows.commitOpen <= m.now <= windows.commitClose) then Some(LateCommit)
    else if !IsHexDigest(m.hash) then Some(MalformedBundle)
    else None
  }

  function PayloadRejection(m: RevealMessage): Option<Code> {
    if m.bundleBytes.None? then Some(MalformedBundle)
    else if m.bundleBytes.value > MAX_REVEAL_BUNDLE_BYTES || |m.nonce| > MAX_NONCE_BYTES * 2 then Some(PayloadTooLarge)
    else None
  }

  predicate InRevealWindow(m: RevealMessage, windows: Windows) {
    windows.revealOpen <= m.now <= windows.revealClose
  }

  function ValidateReveal(cfg: Config, m: RevealMessage, windows: Windows, committed: Option<Digest>): Option<Code> {
    if !m.canonical then Some(MalformedBundle)
    else if m.version != CURRENT_VERSION_KEY then Some(VersionMismatch)
    else if !cfg.registered then Some(UnknownSchema)
    else if PayloadRejection(m).Some? then PayloadRejection(m)
    else if !InRevealWindow(m, windows) then Some(LateReveal)
    else if committed.None? then Some(NoCommit)
    else
      var nonce := FromHex(m.nonce);
      if nonce.None? || |nonce.value| < COMMIT_NONCE_BYTES then Some(MalformedBundle)
      else if committed.value != Opening(m.bundle, nonce.value, m.hotkey) then Some(HashMismatch)
      else m.bundleRejection
  }

  function ReplyOf(rejection: Option<Code>): Reply {
    if rejection.None? then Accepted else Rejected(rejection.value)
  }

  /** What is refused before any storage call that depends on the round's rows. */
  function CommitGate(cfg: Config, m: CommitMessage): Option<Code> {
    if m.schema != cfg.schema then Some(UnknownSchema)
    else if !m.canonical then Some(MalformedBundle)
    else if cfg.windows.None? then Some(RoundUnavailable)
    else None
  }

  function RevealGate(cfg: Config, m: RevealMessage): Option<Code> {
    if m.schema != cfg.schema then Some(UnknownSchema)
    else if !m.canonical then Some(MalformedBundle)
    else if m.version != CURRENT_VERSION_KEY then Some(VersionMismatch)
    else if PayloadRejection(m).Some? then PayloadRejection(m)
    else if cfg.windows.None? || !cfg.universe then Some(RoundUnavailable)
    else None
  }

  /** The specification of handle_commit: the tick thread moves before every storage call. */
  function CommitRun(w: World, cfg: Config, m: CommitMessage): (World, Reply) {
    if CommitGate(cfg, m).Some? then (w, Rejected(CommitGate(cfg, m).value)) else
      var counted := Tick(w);
      var full := CommitCount(counted.db, m.hotkey) >= cfg.maxCommits;
      var read := if full then Tick(counted) else counted;
      if full && !Same(CommittedHash(read.db, m.hotkey), m.hash) then (read, Rejected(RateLimited)) else
        var rejection := ValidateCommit(cfg, m, cfg.windows.value);
        if rejection.Some? then (read, Rejected(rejection.value)) else
          var before := Tick(read);
          var done := RecordCommit(before.db, m.hotkey, m.hash, cfg.maxCommits);
          var after := before.(db := done.0);
          if done.1 then (after, Accepted) else
            var last := Tick(after);
            (last, Rejected(if last.db.state == RoundOpen then RateLimited else LateCommit))
  }

  /** The specification of _admit_reveal. */
  function AdmitRun(w: World, cfg: Config, m: RevealMessage, committed: Option<Digest>): (World, Option<Code>)
    requires cfg.windows.Some?
  {
    var windows := cfg.windows.value;
    if !InRevealWindow(m, windows) || committed.None? then (w, ValidateReveal(cfg, m, windows, committed)) else
      var before := Tick(w);
      var charged := RecordRevealAttempt(before.db, m.hotkey, cfg.maxReveals);
      var after := before.(db := charged.0);
      if charged.1 then (after, ValidateReveal(cfg, m, windows, committed)) else
        var read := Tick(after);
        if AcceptedReveal(read.db, m.hotkey) == Some((m.bundle, m.nonce)) then (read, None) else
          var last := Tick(read);
          (last, Some(if last.db.state == RoundOpen then RateLimited else LateReveal))
  }

  /** What a recorded or refused verdict becomes. */
  function SettleRun(w: World, m: RevealMessage, rejection: Option<Code>): (World, Reply) {
    var before := Tick(w);
    var done := RecordReveal(before.db, m.hotkey, m.bundle, m.nonce, rejection);
    var after := before.(db := done.0);
    if rejection.None? && !done.1 then
      var read := Tick(after);
      (read, if AcceptedReveal(read.db, m.hotkey) != Some((m.bundle, m.nonce)) then Rejected(LateReveal) else Accepted)
    else (after, ReplyOf(rejection))
  }

  /** The specification of handle_reveal. */
  function RevealRun(w: World, cfg: Config, m: RevealMessage): (World, Reply) {
    if RevealGate(cfg, m).Some? then (w, Rejected(RevealGate(cfg, m).value)) else
      var first := Tick(w);
      var second := Tick(first);
      var committed := CommittedHash(second.db, m.hotkey);
      var open := InRevealWindow(m, cfg.windows.value);
      if open && AcceptedReveal(first.db, m.hotkey) == Some((m.bundle, m.nonce)) then (second, Accepted) else
        var admitted := AdmitRun(second, cfg, m, committed);
        if committed.Some? && open && admitted.1 != Some(RateLimited) then SettleRun(admitted.0, m, admitted.1)
        else (admitted.0, ReplyOf(admitted.1))
  }
}
