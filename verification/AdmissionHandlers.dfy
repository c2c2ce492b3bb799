/** The handlers of one round's commits and reveals, over the tables that the tick thread shares with them. */
module AdmissionHandlers {
  import opened Wrappers
  import opened Admission
  import opened AdmissionSafety

  class Handlers {
    const cfg: Config
    var db: Db
    var ticks: seq<seq<Closure>>

    constructor (cfg: Config, ticks: seq<seq<Closure>>)
      ensures Valid() && this.cfg == cfg && Now() == World(EMPTY, ticks)
    {
      this.cfg, this.ticks, db := cfg, ticks, EMPTY;
      EmptySafe(cfg);
    }

    ghost function Now(): World
      reads this
    {
      World(db, ticks)
    }

    ghost predicate Valid()
      reads this
    {
      Safe(db, cfg)
    }

    /** The tick thread runs. */
    method Interfere()
      modifies this
      ensures Now() == Tick(old(Now()))
    {
      if ticks != [] {
        var closures := ticks[0];
        ticks := ticks[1..];
        ghost var target := CloseAll(db, closures);
        for i := 0 to |closures|
          invariant CloseAll(db, closures[i..]) == target && ticks == old(ticks)[1..]
        {
          db := Close(db, closures[i]);
          assert closures[i..][1..] == closures[i + 1..];
        }
      }
    }

    method HandleCommit(m: CommitMessage) returns (reply: Reply)
      requires Valid()
      modifies this
      ensures (Now(), reply) == CommitRun(old(Now()), cfg, m)
      ensures Valid() && Extends(old(db), db) && (reply.Accepted? ==> CommittedHash(db, m.hotkey) == Some(m.hash))
    {
      CommitSafe(Now(), cfg, m);
      if m.schema != cfg.schema {
        return Rejected(UnknownSchema);
      }
      if !m.canonical {
        return Rejected(MalformedBundle);
      }
      if cfg.windows.None? {
        return Rejected(RoundUnavailable);
      }
      Interfere();
      var full := CommitCount(db, m.hotkey) >= cfg.maxCommits;
      var retry := false;
      if full {
        Interfere();
        retry := Same(CommittedHash(db, m.hotkey), m.hash);
      }
      if full && !retry {
        return Rejected(RateLimited);
      }
      var rejection := ValidateCommit(cfg, m, cfg.windows.value);
      if rejection.None? {
        Interfere();
        var done := RecordCommit(db, m.hotkey, m.hash, cfg.maxCommits);
        db := done.0;
        if !done.1 {
          Interfere();
          return Rejected(if db.state == RoundOpen then RateLimited else LateCommit);
        }
      }
      reply := ReplyOf(rejection);
    }

    method AdmitReveal(m: RevealMessage, committed: Option<Digest>) returns (rejection: Option<Code>)
      requires Valid() && cfg.windows.Some? && committed == CommittedHash(db, m.hotkey)
      modifies this
      ensures (Now(), rejection) == AdmitRun(old(Now()), cfg, m, committed)
      ensures Valid() && Extends(old(db), db) && CommittedHash(db, m.hotkey) == committed
      ensures rejection.None? ==> LetThrough(db, committed, m)
    {
      AdmitSafe(Now(), cfg, m, committed);
      if InRevealWindow(m, cfg.windows.value) && committed.Some? {
        Interfere();
        var charged := RecordRevealAttempt(db, m.hotkey, cfg.maxReveals);
        db := charged.0;
        if !charged.1 {
          Interfere();
          if AcceptedReveal(db, m.hotkey) == Some((m.bundle, m.nonce)) {
            return None;
          }
          Interfere();
          return Some(if db.state == RoundOpen then RateLimited else LateReveal);
        }
      }
      rejection := ValidateReveal(cfg, m, cfg.windows.value, committed);
    }

    method HandleReveal(m: RevealMessage) returns (reply: Reply)
      requires Valid()
      modifies this
      ensures (Now(), reply) == RevealRun(old(Now()), cfg, m)
      ensures Valid() && Extends(old(db), db) && (reply.Accepted? ==> Durable(db, m.hotkey, m.bundle, m.nonce))
    {
      RevealSafe(Now(), cfg, m);
      TickSafe(Now(), cfg);
      TickSafe(Tick(Now()), cfg);
      var gate := RevealGate(cfg, m);
      if gate.Some? {
        return Rejected(gate.value);
      }
      var open := InRevealWindow(m, cfg.windows.value);
      Interfere();
      var accepted := AcceptedReveal(db, m.hotkey);
      Interfere();
      var committed := CommittedHash(db, m.hotkey);
      var retry := open && accepted == Some((m.bundle, m.nonce));
      var rejection: Option<Code> := None;
      if !retry {
        rejection := AdmitReveal(m, committed);
      }
      if committed.Some? && open && !retry && rejection != Some(RateLimited) {
        reply := Settle(m, rejection);
      } else {
        reply := ReplyOf(rejection);
      }
    }

    method Settle(m: RevealMessage, rejection: Option<Code>) returns (reply: Reply)
      requires Valid() && CommittedHash(db, m.hotkey).Some?
      requires rejection.None? ==> LetThrough(db, CommittedHash(db, m.hotkey), m)
      modifies this
      ensures (Now(), reply) == SettleRun(old(Now()), m, rejection)
      ensures Valid() && Extends(old(db), db) && (reply.Accepted? ==> Durable(db, m.hotkey, m.bundle, m.nonce))
    {
      SettleSafe(Now(), cfg, m, rejection, CommittedHash(db, m.hotkey));
      Interfere();
      var done := RecordReveal(db, m.hotkey, m.bundle, m.nonce, rejection);
      db := done.0;
      if rejection.None? && !done.1 {
        Interfere();
        if AcceptedReveal(db, m.hotkey) != Some((m.bundle, m.nonce)) {
          return Rejected(LateReveal);
        }
      }
      reply := ReplyOf(rejection);
    }
  }
}
