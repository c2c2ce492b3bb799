/** Which commits and reveals are admitted, in the messages' and the round's own terms. */
module AdmissionRules {
  import opened Wrappers
  import opened Admission
  import opened AdmissionSafety

  // -- hexadecimal text -------------------------------------------------------------------

  predicate LowerHex(c: char) {
    '0' <= c <= '9' || 'a' <= c <= 'f'
  }

  predicate Spaceless(s: string) {
    forall i | 0 <= i < |s| :: s[i] != ' ' && !('\t' <= s[i] <= '\r')
  }

  lemma {:induction false} HexPairs(s: string)
    requires Spaceless(s)
    ensures FromHex(s).Some? <==> |s| % 2 == 0 && forall i | 0 <= i < |s| :: HexDigit(s[i]).Some?
    ensures FromHex(s).Some? ==> 2 * |FromHex(s).value| == |s|
    decreases |s|
  {
    if |s| >= 2 {
      assert forall i | 0 <= i < |s| - 2 :: s[2..][i] == s[i + 2];
      HexPairs(s[2..]);
      if FromHex(s[2..]).Some? && HexDigit(s[0]).Some? && HexDigit(s[1]).Some? {
        forall i | 0 <= i < |s| ensures HexDigit(s[i]).Some? {
          assert i >= 2 ==> s[i] == s[2..][i - 2];
        }
      }
    }
  }

  /** A text without white space is taken for a commit hash exactly if it is 64 lower-case hexadecimal digits. */
  lemma DigestExactly(text: string)
    requires Spaceless(text)
    ensures IsHexDigest(OtherText(text)) <==> |text| == 64 && forall i | 0 <= i < |text| :: LowerHex(text[i])
  {
    HexPairs(text);
    forall i | 0 <= i < |text|
      ensures LowerHex(text[i]) <==> HexDigit(text[i]).Some? && !('A' <= text[i] <= 'Z')
    {
    }
  }

  /** A nonce without white space is long enough exactly from 32 hexadecimal digits on. */
  lemma NonceExactly(nonce: string)
    requires Spaceless(nonce)
    ensures FromHex(nonce).Some? && |FromHex(nonce).value| >= COMMIT_NONCE_BYTES <==>
      |nonce| >= 32 && |nonce| % 2 == 0 && forall i | 0 <= i < |nonce| :: HexDigit(nonce[i]).Some?
  {
    HexPairs(nonce);
  }

  // -- commits ------------------------------------------------------------------------------

  /** The commit is for this round, of the current version and a registered schema, in its window, and a digest. */
  ghost predicate CommitFits(cfg: Config, m: CommitMessage) {
    && m.schema == cfg.schema && m.canonical && m.version == 2044 && cfg.registered && IsHexDigest(m.hash)
    && cfg.windows.Some? && cfg.windows.value.commitOpen <= m.now <= cfg.windows.value.commitClose
  }

  ghost predicate AlreadyCommitted(db: Db, m: CommitMessage) {
    m.hotkey in db.rows && db.rows[m.hotkey].commitHash == Some(m.hash)
  }

  /** The hotkey commits for the first time. */
  ghost predicate CommitsFirst(db: Db, cfg: Config, m: CommitMessage) {
    m.hotkey !in db.rows && cfg.maxCommits > 0
  }

  /** The hotkey has no accepted reveal, and commits left to replace its hash. */
  ghost predicate CommitsAgain(db: Db, cfg: Config, m: CommitMessage) {
    && m.hotkey in db.rows && db.rows[m.hotkey].commitHash != Some(m.hash)
    && db.rows[m.hotkey].verdict != RowAccepted && db.rows[m.hotkey].commits < cfg.maxCommits
  }

  /** With no closure in between, a commit is accepted exactly so: the round is open, the commit fits it, and its hash
      is already the committed one, the hotkey's first, or replaces one with commits left. */
  lemma CommitAdmittedExactly(db: Db, cfg: Config, m: CommitMessage)
    ensures CommitRun(World(db, []), cfg, m).1 == Accepted <==>
      && db.state == RoundOpen && CommitFits(cfg, m)
      && (AlreadyCommitted(db, m) || CommitsFirst(db, cfg, m) || CommitsAgain(db, cfg, m))
  {
  }

  /** And it changes only its hotkey's row: a first commit counts one, a replaced hash one more. */
  lemma CommitStores(db: Db, cfg: Config, m: CommitMessage)
    ensures var (w, reply) := CommitRun(World(db, []), cfg, m);
      w.db ==
        if reply != Accepted || AlreadyCommitted(db, m) then db
        else if m.hotkey !in db.rows
        then db.(rows := db.rows[m.hotkey := Row(Some(m.hash), 1, 0, RowCommitted, None, None, None)])
        else
          var row := db.rows[m.hotkey];
          var replaced := row.(commitHash := Some(m.hash), commits := row.commits + 1, verdict := RowCommitted);
          db.(rows := db.rows[m.hotkey := replaced])
  {
    CommitAdmittedExactly(db, cfg, m);
  }

  /** Of an otherwise admissible commit that is early or late, the answer says so. */
  lemma LateCommitAnswered(db: Db, cfg: Config, m: CommitMessage)
    requires m.schema == cfg.schema && m.canonical && m.version == 2044 && cfg.registered && cfg.windows.Some?
    requires CommitCount(db, m.hotkey) < cfg.maxCommits
    ensures !(cfg.windows.value.commitOpen <= m.now <= cfg.windows.value.commitClose) ==>
      CommitRun(World(db, []), cfg, m).1 == Rejected(LateCommit)
  {
  }

  // -- reveals -------------------------------------------------------------------------------

  /** The reveal is for this round, of the current version, not too large, and in its window. */
  ghost predicate RevealFits(cfg: Config, m: RevealMessage) {
    && m.schema == cfg.schema && m.canonical && m.version == 2044 && cfg.universe
    && m.bundleBytes.Some? && m.bundleBytes.value <= 262_144 && |m.nonce| <= 64
    && cfg.windows.Some? && cfg.windows.value.revealOpen <= m.now <= cfg.windows.value.revealClose
  }

  /** Its bundle and nonce are what the hotkey committed to, and the schema finds nothing wrong with the bundle. */
  ghost predicate OpensCommit(db: Db, cfg: Config, m: RevealMessage) {
    && cfg.registered && m.bundleRejection.None? && m.hotkey in db.rows
    && FromHex(m.nonce).Some? && |FromHex(m.nonce).value| >= 16
    && db.rows[m.hotkey].commitHash == Some(Opening(m.bundle, FromHex(m.nonce).value, m.hotkey))
  }

  /** With no closure in between, an open round accepts a reveal exactly so: it fits the round, and it repeats the
      accepted one, or opens the commit with budget left and no other reveal accepted before. */
  lemma RevealAdmittedExactly(db: Db, cfg: Config, m: RevealMessage)
    requires Safe(db, cfg) && db.state == RoundOpen
    ensures RevealRun(World(db, []), cfg, m).1 == Accepted <==>
      && RevealFits(cfg, m)
      && (Durable(db, m.hotkey, m.bundle, m.nonce)
          || (&& OpensCommit(db, cfg, m)
              && db.rows[m.hotkey].verdict != RowAccepted && db.rows[m.hotkey].attempts < cfg.maxReveals))
  {
    if RevealGate(cfg, m).None? {
      AdmittedExactly(db, cfg, m);
    }
  }

  /** Such a reveal costs one attempt, and is stored as the accepted one. */
  lemma RevealStores(db: Db, cfg: Config, m: RevealMessage)
    requires Safe(db, cfg) && db.state == RoundOpen && RevealFits(cfg, m) && OpensCommit(db, cfg, m)
    requires db.rows[m.hotkey].verdict != RowAccepted && db.rows[m.hotkey].attempts < cfg.maxReveals
    ensures var row := db.rows[m.hotkey];
      RevealRun(World(db, []), cfg, m).0.db ==
        db.(rows := db.rows[m.hotkey := row.(attempts := row.attempts + 1, verdict := RowAccepted,
                                             bundle := Some(m.bundle), nonce := Some(m.nonce), rejection := None)])
  {
    assert RowSafe(db, cfg, m.hotkey);
  }

  /** One that does not open the commit costs one attempt too, and is stored as rejected for it. */
  lemma MismatchStores(db: Db, cfg: Config, m: RevealMessage)
    requires Safe(db, cfg) && db.state == RoundOpen && RevealFits(cfg, m) && cfg.registered && m.hotkey in db.rows
    requires FromHex(m.nonce).Some? && |FromHex(m.nonce).value| >= 16
    requires db.rows[m.hotkey].commitHash != Some(Opening(m.bundle, FromHex(m.nonce).value, m.hotkey))
    requires db.rows[m.hotkey].verdict != RowAccepted && db.rows[m.hotkey].attempts < cfg.maxReveals
    ensures var (w, reply) := RevealRun(World(db, []), cfg, m);
      var row := db.rows[m.hotkey];
      && reply == Rejected(HashMismatch)
      && w.db == db.(rows := db.rows[m.hotkey := row.(attempts := row.attempts + 1, verdict := RowRejected,
                                                      bundle := Some(m.bundle), nonce := Some(m.nonce),
                                                      rejection := Some(HashMismatch))])
  {
    assert RowSafe(db, cfg, m.hotkey);
    AcceptedIsDurable(db, cfg, m.hotkey, m.bundle, m.nonce);
    var committed := CommittedHash(db, m.hotkey);
    assert ValidateReveal(cfg, m, cfg.windows.value, committed) == Some(HashMismatch);
    var charged := RecordRevealAttempt(db, m.hotkey, cfg.maxReveals).0;
    assert AdmitRun(World(db, []), cfg, m, committed) == (World(charged, []), Some(HashMismatch));
    var stored := RecordReveal(charged, m.hotkey, m.bundle, m.nonce, Some(HashMismatch)).0;
    assert stored.rows == db.rows[m.hotkey := stored.rows[m.hotkey]];
  }
}
