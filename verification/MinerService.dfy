/** The miner's submissions, durable before they are sent. */
module MinerService {
  import opened Wrappers
  import opened Sets

  const MAX_TRACKED_ROUNDS := 10

  /** The hash that only this bundle and nonce have, or any other text an assembler might hand over. */
  datatype Digest = HashOf(bundle: string, nonce: string) | OtherText(text: string)
  datatype Submission = Submission(bundle: string, nonce: string, hash: Digest)
  datatype Entry = Entry(submission: Submission, committed: bool, revealed: bool)

  /** What the assembler promises: the hash it returns is that of its bundle and nonce. */
  predicate Assembled(s: Submission) {
    s.hash == HashOf(s.bundle, s.nonce)
  }

  datatype Message = Commit(round: int, hash: Digest) | Reveal(round: int, bundle: string, nonce: string)

  /** The miner's memory, its state file, and every message it ever sent. Rounds are numbered by date, from zero. */
  datatype Miner = Miner(submissions: map<int, Submission>, committed: set<int>, revealed: set<int>, missed: set<int>,
                         disk: map<int, Entry>, sent: seq<Message>)

  /** The rounds a state file keeps: those with fewer than ten later ones. */
  function Tracked(rounds: set<int>): set<int> {
    set r | r in rounds && |set q | q in rounds && q > r| < MAX_TRACKED_ROUNDS
  }

  function Saved(m: Miner): map<int, Entry> {
    map r | r in Tracked(m.submissions.Keys) :: Entry(m.submissions[r], r in m.committed, r in m.revealed)
  }

  function Persist(m: Miner): Miner {
    m.(disk := Saved(m))
  }

  /** A new process: memory is what the state file holds. */
  function Reload(m: Miner): Miner {
    var rounds := Tracked(m.disk.Keys);
    Miner(map r | r in rounds :: m.disk[r].submission, set r | r in rounds && m.disk[r].committed,
          set r | r in rounds && m.disk[r].revealed, {}, m.disk, m.sent)
  }

  function Missed(m: Miner, round: int): Miner {
    var missed := m.missed + {round};
    if |missed| > MAX_TRACKED_ROUNDS then m.(missed := set r | r in missed && exists q | q in missed :: q < r)
    else m.(missed := missed)
  }

  /** How far a tick gets before the process dies, if it does. */
  datatype Stop = BeforePersist | BeforeSend | BeforeSave | Finishes

  /** After a send: the process may die before it saves the acknowledgement, and the save may fail. */
  function Settle(sent: Miner, marked: Miner, acknowledged: bool, saved: bool, stop: Stop): Miner {
    if stop == BeforeSave then Reload(sent)
    else if !acknowledged then sent
    else if saved then Persist(marked)
    else marked
  }

  /** One commit tick; `made` is what the assembler would return, and the flags say which writes succeed. */
  function CommitTick(m: Miner, round: int, made: Submission, persisted: bool, accepted: nat, saved: bool, stop: Stop)
    : Miner
  {
    var known := round in m.submissions;
    if !known && stop == BeforePersist then Reload(m) else
      var mem := if known then m else m.(submissions := m.submissions[round := made]);
      if !known && !persisted then mem else
        var ready := if known then mem else Persist(mem);
        if stop == BeforePersist || stop == BeforeSend then Reload(ready) else
          var out := ready.(sent := ready.sent + [Commit(round, ready.submissions[round].hash)]);
          Settle(out, out.(committed := out.committed + {round}), accepted >= 1 && round !in out.committed, saved, stop)
  }

  function RevealTick(m: Miner, round: int, accepted: nat, saved: bool, stop: Stop): Miner {
    if round !in m.committed || round !in m.submissions then Missed(m, round)
    else if stop == BeforePersist || stop == BeforeSend then Reload(m)
    else
      var s := m.submissions[round];
      var out := m.(sent := m.sent + [Reveal(round, s.bundle, s.nonce)]);
      Settle(out, out.(revealed := out.revealed + {round}), accepted >= 1 && round !in out.revealed, saved, stop)
  }

  class Service {
    var submissions: map<int, Submission>
    var committed: set<int>
    var revealed: set<int>
    var missed: set<int>
    var disk: map<int, Entry>
    ghost var sent: seq<Message>

    ghost function State(): Miner
      reads this
    {
      Miner(submissions, committed, revealed, missed, disk, sent)
    }

    constructor ()
      ensures State() == Miner(map[], {}, {}, {}, map[], [])
    {
      submissions, committed, revealed, missed, disk, sent := map[], {}, {}, {}, map[], [];
    }

    /** Restart after a crash. */
    method LoadState()
      modifies this
      ensures State() == Reload(old(State()))
    {
      var rounds := Tracked(disk.Keys);
      submissions := map r | r in rounds :: disk[r].submission;
      committed := set r | r in rounds && disk[r].committed;
      revealed := set r | r in rounds && disk[r].revealed;
      missed := {};
    }

    method PersistState()
      modifies this`disk
      ensures State() == Persist(old(State()))
    {
      disk := map r | r in Tracked(submissions.Keys) :: Entry(submissions[r], r in committed, r in revealed);
    }

    /** Assemble once and make it durable; `ok` says whether the write succeeded. */
    method Assemble(round: int, made: Submission, persisted: bool) returns (ok: bool)
      requires round !in submissions
      modifies this`submissions, this`disk
      ensures ok == persisted
      ensures var mem := old(State()).(submissions := old(submissions)[round := made]);
        State() == if ok then Persist(mem) else mem
    {
      submissions := submissions[round := made];
      if persisted {
        PersistState();
      }
      ok := persisted;
    }

    method TickCommit(round: int, made: Submission, persisted: bool, accepted: nat, saved: bool)
      modifies this
      ensures State() == CommitTick(old(State()), round, made, persisted, accepted, saved, Finishes)
    {
      if round !in submissions {
        var ok := Assemble(round, made, persisted);
        if !ok {
          return;
        }
      }
      sent := sent + [Commit(round, submissions[round].hash)];
      if accepted >= 1 && round !in committed {
        committed := committed + {round};
        if saved {
          PersistState();
        }
      }
    }

    method TickReveal(round: int, accepted: nat, saved: bool)
      requires round in committed ==> round in submissions
      modifies this
      ensures State() == RevealTick(old(State()), round, accepted, saved, Finishes)
    {
      if round !in committed {
        missed := missed + {round};
        if |missed| > MAX_TRACKED_ROUNDS {
          missed := set r | r in missed && exists q | q in missed :: q < r;
        }
        return;
      }
      sent := sent + [Reveal(round, submissions[round].bundle, submissions[round].nonce)];
      if accepted >= 1 && round !in revealed {
        revealed := revealed + {round};
        if saved {
          PersistState();
        }
      }
    }
  }

  // -- over every run ---------------------------------------------------------------------

  datatype Event =
    | CommitEvent(round: int, made: Submission, persisted: bool, accepted: nat, saved: bool, stop: Stop)
    | RevealEvent(round: int, accepted: nat, saved: bool, stop: Stop)
    | CrashEvent

  ghost function Step(m: Miner, e: Event): Miner {
    match e
    case CommitEvent(round, made, persisted, accepted, saved, stop) =>
      CommitTick(m, round, made, persisted, accepted, saved, stop)
    case RevealEvent(round, accepted, saved, stop) => RevealTick(m, round, accepted, saved, stop)
    case CrashEvent => Reload(m)
  }

  ghost function Clock(e: Event, now: int): int {
    match e
    case CommitEvent(round, _, _, _, _, _) => round
    case RevealEvent(round, _, _, _) => round
    case CrashEvent => now
  }

  ghost function ClockAfter(events: seq<Event>): int
    decreases |events|
  {
    if events == [] then 0 else Clock(events[|events| - 1], ClockAfter(events[..|events| - 1]))
  }

  ghost function Run(events: seq<Event>): Miner
    decreases |events|
  {
    if events == [] then Miner(map[], {}, {}, {}, map[], [])
    else Step(Run(events[..|events| - 1]), events[|events| - 1])
  }

  /** A clock that never runs back and a sound assembler; any write may fail. */
  ghost predicate Timely(e: Event, now: int) {
    Clock(e, now) >= now && (e.CommitEvent? ==> Assembled(e.made))
  }

  ghost predicate TimelyRun(events: seq<Event>)
    decreases |events|
  {
    events == [] ||
    (TimelyRun(events[..|events| - 1]) && Timely(events[|events| - 1], ClockAfter(events[..|events| - 1])))
  }

  /** The event does not fail to write a fresh submission of round `r`. */
  ghost predicate Durable(m: Miner, e: Event, r: int) {
    e.CommitEvent? && e.round == r && e.stop != BeforePersist ==> r in m.submissions || e.persisted
  }

  /** From event `k` on, no event fails to write a fresh submission of round `r`. */
  ghost predicate DurableFrom(events: seq<Event>, k: nat, r: int)
    decreases |events|
  {
    |events| <= k ||
    var front := events[..|events| - 1];
    DurableFrom(front, k, r) && Durable(Run(front), events[|events| - 1], r)
  }

  // -- what a run keeps about one round -------------------------------------------------

  /** All messages of a round come from this one submission. */
  ghost predicate From(msg: Message, s: Submission) {
    match msg
    case Commit(_, hash) => hash == s.hash
    case Reveal(_, bundle, nonce) => bundle == s.bundle && nonce == s.nonce
  }

  ghost predicate AllFrom(sent: seq<Message>, r: int, origin: Option<Submission>) {
    forall i | 0 <= i < |sent| && sent[i].round == r :: origin.Some? && From(sent[i], origin.value)
  }

  /** Nothing of a later round is known, and round `r`'s submission is as an assembler makes them. */
  ghost predicate Known(m: Miner, now: int, r: int) {
    && (forall q | q in m.submissions :: q <= now) && (forall q | q in m.disk :: q <= now)
    && (r in m.submissions ==> Assembled(m.submissions[r])) && (r in m.disk ==> Assembled(m.disk[r].submission))
  }

  /** While `r` is the round, memory and state file hold the same submission of it, if any. */
  ghost predicate SameOnDisk(m: Miner, r: int) {
    && (r in m.submissions <==> r in m.disk)
    && (r in m.submissions ==> m.disk[r].submission == m.submissions[r])
  }

  /** `origin` is the one submission that round `r`'s messages come from, once there is one. */
  ghost predicate Fits(m: Miner, now: int, r: int, origin: Option<Submission>) {
    && Known(m, now, r) && AllFrom(m.sent, r, origin)
    && (origin.Some? ==> r <= now && Assembled(origin.value))
    && (r == now ==> SameOnDisk(m, r) && (origin.Some? ==> r in m.disk && m.disk[r].submission == origin.value))
  }

  lemma LatestTracked(rounds: set<int>, now: int)
    requires now in rounds && forall r | r in rounds :: r <= now
    ensures now in Tracked(rounds)
  {
    assert (set q | q in rounds && q > now) == {};
  }

  lemma PersistFits(m: Miner, now: int, r: int, origin: Option<Submission>)
    requires Known(m, now, r) && AllFrom(m.sent, r, origin) && (origin.Some? ==> r <= now && Assembled(origin.value))
    requires r == now && origin.Some? ==> r in m.submissions && m.submissions[r] == origin.value
    ensures Fits(Persist(m), now, r, origin)
  {
    if r == now && r in m.submissions {
      LatestTracked(m.submissions.Keys, now);
    }
  }

  lemma ReloadFits(m: Miner, now: int, r: int, origin: Option<Submission>)
    requires Fits(m, now, r, origin)
    ensures Fits(Reload(m), now, r, origin)
  {
    if r == now && r in m.disk {
      LatestTracked(m.disk.Keys, now);
    }
  }

  lemma LaterFits(m: Miner, now: int, later: int, r: int, origin: Option<Submission>)
    requires Fits(m, now, r, origin) && later >= now
    ensures Fits(m, later, r, origin)
  {
  }

  lemma SettleFits(sent: Miner, marked: Miner, acknowledged: bool, saved: bool, stop: Stop, now: int, r: int,
                   origin: Option<Submission>)
    requires Fits(sent, now, r, origin) && marked == sent.(committed := marked.committed, revealed := marked.revealed)
    ensures Fits(Settle(sent, marked, acknowledged, saved, stop), now, r, origin)
  {
    ReloadFits(sent, now, r, origin);
    PersistFits(marked, now, r, origin);
  }

  /** Where round `r`'s messages come from once `msg` is sent. */
  function OriginWith(m: Miner, r: int, origin: Option<Submission>, msg: Message): Option<Submission> {
    if msg.round == r && r in m.submissions then Some(m.submissions[r]) else origin
  }

  lemma SendFits(m: Miner, now: int, r: int, origin: Option<Submission>, msg: Message)
    requires Fits(m, now, r, origin) && msg.round == now && now in m.submissions && From(msg, m.submissions[now])
    ensures Fits(m.(sent := m.sent + [msg]), now, r, OriginWith(m, r, origin, msg))
  {
  }

  /** A fresh submission in memory only is no harm to another round. */
  lemma UnwrittenFits(m: Miner, now: int, r: int, origin: Option<Submission>, made: Submission)
    requires Fits(m, now, r, origin) && r != now
    ensures Fits(m.(submissions := m.submissions[now := made]), now, r, origin)
  {
  }

  lemma WrittenFits(m: Miner, now: int, r: int, origin: Option<Submission>, made: Submission)
    requires Fits(m, now, r, origin) && now !in m.submissions && Assembled(made)
    ensures Fits(Persist(m.(submissions := m.submissions[now := made])), now, r, origin)
  {
    PersistFits(m.(submissions := m.submissions[now := made]), now, r, origin);
  }

  /** From a submission in memory on: the tick dies before sending, before saving, or finishes. */
  lemma CommitSent(m: Miner, now: int, r: int, origin: Option<Submission>, e: Event) returns (next: Option<Submission>)
    requires Fits(m, now, r, origin) && e.CommitEvent? && e.round == now && now in m.submissions
    ensures Fits(Step(m, e), now, r, next)
  {
    next := origin;
    ReloadFits(m, now, r, origin);
    if e.stop != BeforePersist && e.stop != BeforeSend {
      var msg := Commit(now, m.submissions[now].hash);
      SendFits(m, now, r, origin, msg);
      next := OriginWith(m, r, origin, msg);
      var out := m.(sent := m.sent + [msg]);
      var marked := out.(committed := out.committed + {now});
      SettleFits(out, marked, e.accepted >= 1 && now !in out.committed, e.saved, e.stop, now, r, next);
    }
  }

  /** A written fresh submission goes on as a known one does. */
  lemma FreshThenKnown(m: Miner, e: Event)
    requires e.CommitEvent? && e.round !in m.submissions && e.persisted && e.stop != BeforePersist
    ensures Step(m, e) == Step(Persist(m.(submissions := m.submissions[e.round := e.made])), e)
  {
  }

  lemma CommitFits(m: Miner, now: int, r: int, origin: Option<Submission>, e: Event) returns (next: Option<Submission>)
    requires Fits(m, now, r, origin) && e.CommitEvent? && e.round == now && Assembled(e.made) && Durable(m, e, r)
    ensures Fits(Step(m, e), now, r, next)
  {
    next := origin;
    if now in m.submissions {
      next := CommitSent(m, now, r, origin, e);
    } else if e.stop == BeforePersist {
      ReloadFits(m, now, r, origin);
    } else if e.persisted {
      WrittenFits(m, now, r, origin, e.made);
      FreshThenKnown(m, e);
      next := CommitSent(Persist(m.(submissions := m.submissions[now := e.made])), now, r, origin, e);
    } else {
      UnwrittenFits(m, now, r, origin, e.made);
    }
  }

  lemma RevealFits(m: Miner, now: int, r: int, origin: Option<Submission>, e: Event) returns (next: Option<Submission>)
    requires Fits(m, now, r, origin) && e.RevealEvent? && e.round == now
    ensures Fits(Step(m, e), now, r, next)
  {
    next := origin;
    ReloadFits(m, now, r, origin);
    if now in m.committed && now in m.submissions && e.stop != BeforePersist && e.stop != BeforeSend {
      var msg := Reveal(now, m.submissions[now].bundle, m.submissions[now].nonce);
      SendFits(m, now, r, origin, msg);
      next := OriginWith(m, r, origin, msg);
      var out := m.(sent := m.sent + [msg]);
      var marked := out.(revealed := out.revealed + {now});
      SettleFits(out, marked, e.accepted >= 1 && now !in out.revealed, e.saved, e.stop, now, r, next);
    }
  }

  lemma StepFits(m: Miner, now: int, r: int, origin: Option<Submission>, e: Event) returns (next: Option<Submission>)
    requires Fits(m, now, r, origin) && Timely(e, now) && Durable(m, e, r)
    ensures Fits(Step(m, e), Clock(e, now), r, next)
  {
    LaterFits(m, now, Clock(e, now), r, origin);
    match e {
      case CommitEvent(round, _, _, _, _, _) => next := CommitFits(m, round, r, origin, e);
      case RevealEvent(round, _, _, _) => next := RevealFits(m, round, r, origin, e);
      case CrashEvent =>
        next := origin;
        ReloadFits(m, now, r, origin);
    }
  }

  // -- whatever writes fail --------------------------------------------------------------

  /** What every run keeps: a submission of the current round that is on file is the one in memory. */
  ghost predicate Base(m: Miner, now: int, r: int) {
    && Known(m, now, r)
    && (r == now && r in m.disk ==> r in m.submissions && m.submissions[r] == m.disk[r].submission)
  }

  lemma ReloadBase(m: Miner, now: int, r: int)
    requires Base(m, now, r)
    ensures Base(Reload(m), now, r)
  {
    if r == now && r in m.disk {
      LatestTracked(m.disk.Keys, now);
    }
  }

  lemma SettleBase(sent: Miner, marked: Miner, acknowledged: bool, saved: bool, stop: Stop, now: int, r: int)
    requires Base(sent, now, r) && marked == sent.(committed := marked.committed, revealed := marked.revealed)
    ensures Base(Settle(sent, marked, acknowledged, saved, stop), now, r)
  {
    ReloadBase(sent, now, r);
  }

  lemma CommitKnownBase(m: Miner, now: int, r: int, e: Event)
    requires Base(m, now, r) && e.CommitEvent? && e.round == now && now in m.submissions
    ensures Base(Step(m, e), now, r)
  {
    ReloadBase(m, now, r);
    var out := m.(sent := m.sent + [Commit(now, m.submissions[now].hash)]);
    var marked := out.(committed := out.committed + {now});
    SettleBase(out, marked, e.accepted >= 1 && now !in out.committed, e.saved, e.stop, now, r);
  }

  lemma CommitBase(m: Miner, now: int, r: int, e: Event)
    requires Base(m, now, r) && e.CommitEvent? && e.round == now && Assembled(e.made)
    ensures Base(Step(m, e), now, r)
  {
    if now in m.submissions {
      CommitKnownBase(m, now, r, e);
    } else if e.stop == BeforePersist {
      ReloadBase(m, now, r);
    } else if e.persisted {
      FreshThenKnown(m, e);
      CommitKnownBase(Persist(m.(submissions := m.submissions[now := e.made])), now, r, e);
    }
  }

  lemma RevealBase(m: Miner, now: int, r: int, e: Event)
    requires Base(m, now, r) && e.RevealEvent? && e.round == now
    ensures Base(Step(m, e), now, r)
  {
    ReloadBase(m, now, r);
    if now in m.committed && now in m.submissions && e.stop != BeforePersist && e.stop != BeforeSend {
      var out := m.(sent := m.sent + [Reveal(now, m.submissions[now].bundle, m.submissions[now].nonce)]);
      var marked := out.(revealed := out.revealed + {now});
      SettleBase(out, marked, e.accepted >= 1 && now !in out.revealed, e.saved, e.stop, now, r);
    }
  }

  lemma {:induction false} RunBase(events: seq<Event>, r: int)
    requires TimelyRun(events)
    ensures Base(Run(events), ClockAfter(events), r)
    decreases |events|
  {
    if events != [] {
      var n := |events| - 1;
      var before, now, e := Run(events[..n]), ClockAfter(events), events[n];
      RunBase(events[..n], r);
      match e
      case CommitEvent(_, _, _, _, _, _) => CommitBase(before, now, r, e);
      case RevealEvent(_, _, _, _) => RevealBase(before, now, r, e);
      case CrashEvent => ReloadBase(before, now, r);
    }
  }

  // -- exactly when one hash is kept -----------------------------------------------------

  /** Two commits of a round carry the same hash, and a reveal opens the hash of a commit. */
  ghost predicate Agree(a: Message, b: Message) {
    && (a.Commit? && b.Commit? ==> a.hash == b.hash)
    && (a.Commit? && b.Reveal? ==> a.hash == HashOf(b.bundle, b.nonce))
  }

  ghost predicate OneHash(sent: seq<Message>, r: int) {
    forall i, j | 0 <= i < |sent| && 0 <= j < |sent| && sent[i].round == r && sent[j].round == r ::
      Agree(sent[i], sent[j])
  }

  function OnDisk(m: Miner, r: int): Option<Submission> {
    if r in m.disk then Some(m.disk[r].submission) else None
  }

  /** Round `r`'s submission is on file if it is in memory, and every message sent for the round came from it. */
  ghost predicate Recoverable(m: Miner, r: int) {
    SameOnDisk(m, r) && AllFrom(m.sent, r, OnDisk(m, r))
  }

  /** `whole` is a way to go on after `events` that fails no further write of a fresh submission of round `r`. */
  ghost predicate GoesOn(events: seq<Event>, whole: seq<Event>, r: int) {
    events <= whole && TimelyRun(whole) && DurableFrom(whole, |events|, r)
  }

  ghost predicate KeepsOneHash(events: seq<Event>, whole: seq<Event>, r: int) {
    GoesOn(events, whole, r) ==> OneHash(Run(whole).sent, r)
  }

  ghost predicate AlwaysOneHash(events: seq<Event>, r: int) {
    forall whole {:trigger KeepsOneHash(events, whole, r)} :: KeepsOneHash(events, whole, r)
  }

  lemma {:induction false} ContinuationFits(events: seq<Event>, whole: seq<Event>, r: int, start: Option<Submission>)
    returns (origin: Option<Submission>)
    requires GoesOn(events, whole, r) && Fits(Run(events), ClockAfter(events), r, start)
    ensures Fits(Run(whole), ClockAfter(whole), r, origin)
    decreases |whole|
  {
    if |whole| == |events| {
      assert whole == events;
      origin := start;
    } else {
      var n := |whole| - 1;
      var before := ContinuationFits(events, whole[..n], r, start);
      origin := StepFits(Run(whole[..n]), ClockAfter(whole[..n]), r, before, whole[n]);
    }
  }

  lemma AllFromOne(sent: seq<Message>, r: int, origin: Option<Submission>)
    requires AllFrom(sent, r, origin) && (origin.Some? ==> Assembled(origin.value))
    ensures OneHash(sent, r)
  {
    forall i, j | 0 <= i < |sent| && 0 <= j < |sent| && sent[i].round == r && sent[j].round == r
      ensures Agree(sent[i], sent[j])
    {
      assert From(sent[i], origin.value) && From(sent[j], origin.value);
    }
  }

  lemma RecoverableKeeps(events: seq<Event>, r: int)
    requires TimelyRun(events) && r >= ClockAfter(events) && Recoverable(Run(events), r)
    ensures AlwaysOneHash(events, r)
  {
    RunBase(events, r);
    forall whole ensures KeepsOneHash(events, whole, r) {
      if GoesOn(events, whole, r) {
        var origin := ContinuationFits(events, whole, r, OnDisk(Run(events), r));
        AllFromOne(Run(whole).sent, r, origin);
      }
    }
  }

  /** A submission whose hash is not this one. */
  function Another(hash: Digest): (s: Submission)
    ensures Assembled(s) && s.hash != hash
  {
    if hash == HashOf("", "") then Submission("", "0", HashOf("", "0")) else Submission("", "", HashOf("", ""))
  }

  function HashIn(msg: Message): Digest {
    if msg.Commit? then msg.hash else HashOf(msg.bundle, msg.nonce)
  }

  /** A tick that dies after the send, before any acknowledgement is saved. */
  function Dying(r: int, made: Submission): Event {
    CommitEvent(r, made, true, 0, true, BeforeSave)
  }

  /** A tick in which every write succeeds. */
  function Sending(r: int, made: Submission): Event {
    CommitEvent(r, made, true, 0, true, Finishes)
  }

  lemma RunMore(events: seq<Event>, e: Event)
    ensures Run(events + [e]) == Step(Run(events), e) && ClockAfter(events + [e]) == Clock(e, ClockAfter(events))
    ensures TimelyRun(events + [e]) <==> TimelyRun(events) && Timely(e, ClockAfter(events))
  {
    assert (events + [e])[..|events|] == events;
  }

  /** One more event of a way to go on. */
  lemma GoesOnMore(events: seq<Event>, whole: seq<Event>, r: int, e: Event)
    requires GoesOn(events, whole, r) && Timely(e, ClockAfter(whole)) && Durable(Run(whole), e, r)
    ensures GoesOn(events, whole + [e], r)
    ensures Run(whole + [e]) == Step(Run(whole), e) && ClockAfter(whole + [e]) == Clock(e, ClockAfter(whole))
  {
    RunMore(whole, e);
    assert (whole + [e])[..|whole|] == whole;
  }

  lemma Extended(events: seq<Event>, whole: seq<Event>, r: int, e: Event) returns (next: seq<Event>)
    requires GoesOn(events, whole, r) && Timely(e, ClockAfter(whole)) && Durable(Run(whole), e, r)
    ensures GoesOn(events, next, r) && Run(next) == Step(Run(whole), e)
        && ClockAfter(next) == Clock(e, ClockAfter(whole))
  {
    next := whole + [e];
    GoesOnMore(events, whole, r, e);
  }

  /** A tick of the current round that runs to its end sends what is in memory, or else what is assembled. */
  lemma SendingSends(m: Miner, r: int, made: Submission)
    ensures Step(m, Sending(r, made)).sent ==
      m.sent + [Commit(r, if r in m.submissions then m.submissions[r].hash else made.hash)]
  {
  }

  lemma AgreesWithLast(sent: seq<Message>, r: int, hash: Digest)
    requires OneHash(sent + [Commit(r, hash)], r)
    ensures forall i | 0 <= i < |sent| && sent[i].round == r :: HashIn(sent[i]) == hash
  {
    var all := sent + [Commit(r, hash)];
    forall i | 0 <= i < |sent| && sent[i].round == r ensures HashIn(sent[i]) == hash {
      assert all[i] == sent[i] && all[|sent|] == Commit(r, hash);
      assert Agree(all[|sent|], all[i]);
    }
  }

  /** One more tick, if it must agree with all that was sent. */
  lemma SendingAgrees(events: seq<Event>, r: int, made: Submission)
    requires TimelyRun(events) && r >= ClockAfter(events) && Assembled(made) && AlwaysOneHash(events, r)
    ensures var m := Run(events);
      forall i | 0 <= i < |m.sent| && m.sent[i].round == r ::
        HashIn(m.sent[i]) == if r in m.submissions then m.submissions[r].hash else made.hash
  {
    var m := Run(events);
    var whole := Extended(events, events, r, Sending(r, made));
    assert KeepsOneHash(events, whole, r);
    SendingSends(m, r, made);
    AgreesWithLast(m.sent, r, if r in m.submissions then m.submissions[r].hash else made.hash);
  }

  lemma DyingThenSending(m: Miner, r: int, made: Submission)
    requires r in m.submissions && r !in m.disk
    ensures Step(Step(m, Dying(r, made)), Sending(r, made)).sent
      == m.sent + [Commit(r, m.submissions[r].hash)] + [Commit(r, made.hash)]
  {
  }

  lemma TwoHashes(sent: seq<Message>, r: int, first: Digest, second: Digest)
    requires first != second
    ensures !OneHash(sent + [Commit(r, first)] + [Commit(r, second)], r)
  {
    var all := sent + [Commit(r, first)] + [Commit(r, second)];
    assert all[|sent|] == Commit(r, first) && all[|sent| + 1] == Commit(r, second);
    assert !Agree(all[|sent|], all[|sent| + 1]);
  }

  /** In memory only: the process dies after the next send, and the tick after the restart assembles again. */
  lemma MemoryOnlyBreaks(events: seq<Event>, r: int)
    requires TimelyRun(events) && r >= ClockAfter(events) && r in Run(events).submissions && r !in Run(events).disk
    ensures !AlwaysOneHash(events, r)
  {
    var m := Run(events);
    var made := Another(m.submissions[r].hash);
    var one := Extended(events, events, r, Dying(r, made));
    var two := Extended(events, one, r, Sending(r, made));
    DyingThenSending(m, r, made);
    TwoHashes(m.sent, r, m.submissions[r].hash, made.hash);
    assert !KeepsOneHash(events, two, r);
  }

  lemma FromOnDisk(m: Miner, r: int, s: Submission)
    requires Assembled(s) && forall i | 0 <= i < |m.sent| && m.sent[i].round == r :: HashIn(m.sent[i]) == s.hash
    ensures AllFrom(m.sent, r, Some(s))
  {
  }

  lemma NothingSent(events: seq<Event>, r: int, i: nat)
    requires TimelyRun(events) && r >= ClockAfter(events) && AlwaysOneHash(events, r) && r !in Run(events).submissions
    requires i < |Run(events).sent|
    ensures Run(events).sent[i].round != r
  {
    var made := Another(HashIn(Run(events).sent[i]));
    assert Assembled(made);
    SendingAgrees(events, r, made);
  }

  lemma DiskInMemory(m: Miner, now: int, r: int)
    requires Base(m, now, r) && r >= now && r in m.disk
    ensures SameOnDisk(m, r) && Assembled(m.submissions[r])
  {
    assert r == now;
  }

  lemma DiskRecoverable(events: seq<Event>, r: int)
    requires TimelyRun(events) && r >= ClockAfter(events) && AlwaysOneHash(events, r)
    requires Base(Run(events), ClockAfter(events), r) && r in Run(events).disk
    ensures Recoverable(Run(events), r)
  {
    var m := Run(events);
    DiskInMemory(m, ClockAfter(events), r);
    SendingAgrees(events, r, m.submissions[r]);
    FromOnDisk(m, r, m.submissions[r]);
  }

  lemma KeepingIsRecoverable(events: seq<Event>, r: int)
    requires TimelyRun(events) && r >= ClockAfter(events) && AlwaysOneHash(events, r)
    ensures Recoverable(Run(events), r)
  {
    var m := Run(events);
    RunBase(events, r);
    if r in m.disk {
      DiskRecoverable(events, r);
    } else if r in m.submissions {
      MemoryOnlyBreaks(events, r);
    } else {
      forall i | 0 <= i < |m.sent| ensures m.sent[i].round != r {
        NothingSent(events, r, i);
      }
    }
  }

  lemma {:induction false} PastIsPast(events: seq<Event>, whole: seq<Event>, r: int)
    requires events <= whole && TimelyRun(whole) && r < ClockAfter(events)
    ensures r < ClockAfter(whole)
    ensures OneHash(Run(whole).sent, r) <==> OneHash(Run(events).sent, r)
    decreases |whole|
  {
    if |whole| == |events| {
      assert whole == events;
    } else {
      var n := |whole| - 1;
      PastIsPast(events, whole[..n], r);
      StepSendsNow(Run(whole[..n]), whole[n], ClockAfter(whole[..n]), r);
    }
  }

  /** A step sends nothing, or one message of its own round. */
  lemma StepSends(m: Miner, e: Event)
    ensures var sent := Step(m, e).sent;
      sent == m.sent || (exists msg :: sent == m.sent + [msg] && !e.CrashEvent? && msg.round == e.round)
  {
    match e
    case CommitEvent(round, made, _, _, _, _) =>
      var s := if round in m.submissions then m.submissions[round] else made;
      assert Step(m, e).sent == m.sent || Step(m, e).sent == m.sent + [Commit(round, s.hash)];
    case RevealEvent(round, _, _, _) =>
      if round in m.submissions {
        var s := m.submissions[round];
        assert Step(m, e).sent == m.sent || Step(m, e).sent == m.sent + [Reveal(round, s.bundle, s.nonce)];
      }
    case CrashEvent =>
  }

  lemma StepSendsNow(m: Miner, e: Event, now: int, r: int)
    requires Timely(e, now) && r < now
    ensures OneHash(Step(m, e).sent, r) <==> OneHash(m.sent, r)
  {
    StepSends(m, e);
    if msg :| Step(m, e).sent == m.sent + [msg] && !e.CrashEvent? && msg.round == e.round {
      OtherRoundAdded(m.sent, msg, r);
    }
  }

  lemma OtherRoundAdded(sent: seq<Message>, msg: Message, r: int)
    requires msg.round != r
    ensures OneHash(sent + [msg], r) <==> OneHash(sent, r)
  {
    var all := sent + [msg];
    assert forall i | 0 <= i < |sent| :: all[i] == sent[i];
    if OneHash(all, r) {
      forall i, j | 0 <= i < |sent| && 0 <= j < |sent| && sent[i].round == r && sent[j].round == r
        ensures Agree(sent[i], sent[j])
      {
        assert Agree(all[i], all[j]);
      }
    }
  }

  /** After any run of ticks and crashes, whatever writes failed in it: every way to go on that fails no further write
      of a fresh submission of a round keeps one hash for all its commits, opened by every reveal, if and only if the
      round's submission is on file if it is in memory, and all sent for it came from there; for a round that is over,
      if and only if it has so far. */
  lemma OneHashExactly(events: seq<Event>, r: int)
    requires TimelyRun(events)
    ensures AlwaysOneHash(events, r) <==>
      if r >= ClockAfter(events) then Recoverable(Run(events), r) else OneHash(Run(events).sent, r)
  {
    if r >= ClockAfter(events) {
      if Recoverable(Run(events), r) {
        RecoverableKeeps(events, r);
      } else if AlwaysOneHash(events, r) {
        KeepingIsRecoverable(events, r);
      }
    } else {
      assert KeepsOneHash(events, events, r) ==> OneHash(Run(events).sent, r);
      forall whole | OneHash(Run(events).sent, r) ensures KeepsOneHash(events, whole, r) {
        if GoesOn(events, whole, r) {
          PastIsPast(events, whole, r);
        }
      }
    }
  }

  /** So in any run of ticks and crashes that fails to write no fresh submission of a round, whatever other writes fail,
      every commit sent for the round carries the same hash, and every reveal sent for it opens it. */
  lemma OneSubmissionARound(events: seq<Event>, r: int)
    requires TimelyRun(events) && DurableFrom(events, 0, r)
    ensures OneHash(Run(events).sent, r)
  {
    OneHashExactly([], r);
    assert KeepsOneHash([], events, r);
  }

  // -- a failed write ------------------------------------------------------------------------

  /** A tick whose fresh write fails. */
  function Failing(r: int, made: Submission): Event {
    CommitEvent(r, made, false, 0, true, Finishes)
  }

  lemma NotOnDisk(events: seq<Event>, r: int)
    requires TimelyRun(events) && r >= ClockAfter(events) && r !in Run(events).submissions
    ensures r !in Run(events).disk
  {
    RunBase(events, r);
  }

  lemma FailingLeavesMemoryOnly(events: seq<Event>, r: int, made: Submission)
    requires TimelyRun(events) && r >= ClockAfter(events) && r !in Run(events).submissions && Assembled(made)
    ensures var more := events + [Failing(r, made)];
      && TimelyRun(more) && ClockAfter(more) == r && Run(more).sent == Run(events).sent
      && Run(more).submissions == Run(events).submissions[r := made] && r !in Run(more).disk
  {
    NotOnDisk(events, r);
    RunMore(events, Failing(r, made));
  }

  /** One failed write is enough to break it: any run that has not yet assembled a round's submission can go on to
      commit two different hashes for it, if its assembler makes two. The write fails, the next tick sends what it left
      in memory all the same and dies before it saves the acknowledgement, and the tick after the restart assembles
      again. */
  lemma FailedPersistBreaks(events: seq<Event>, r: int, first: Submission, second: Submission)
    requires TimelyRun(events) && r >= ClockAfter(events) && r !in Run(events).submissions
    requires Assembled(first) && Assembled(second) && first.hash != second.hash
    ensures var failed := events + [Failing(r, first)];
      && TimelyRun(failed) && GoesOn(failed, failed + [Dying(r, second)] + [Sending(r, second)], r)
      && Run(failed + [Dying(r, second)] + [Sending(r, second)]).sent
           == Run(events).sent + [Commit(r, first.hash)] + [Commit(r, second.hash)]
  {
    var failed := events + [Failing(r, first)];
    FailingLeavesMemoryOnly(events, r, first);
    GoesOnMore(failed, failed, r, Dying(r, second));
    GoesOnMore(failed, failed + [Dying(r, second)], r, Sending(r, second));
    DyingThenSending(Run(failed), r, second);
  }

  lemma FailingCommitsNothing(m: Miner, r: int, made: Submission)
    requires r !in m.submissions
    ensures Step(m, Failing(r, made)).committed == m.committed
  {
  }

  lemma SavedTickRepairs(m: Miner, r: int, again: Event)
    requires Known(m, r, r) && r in m.submissions && r !in m.committed && AllFrom(m.sent, r, None)
    requires again.CommitEvent? && again.round == r && again.accepted >= 1 && again.saved && again.stop == Finishes
    ensures Recoverable(Step(m, again), r)
  {
    LatestTracked(m.submissions.Keys, r);
  }

  /** And one saved acknowledgement repairs it: the next tick that is acknowledged and saves writes the submission too,
      and from then on every way to go on keeps its hash. */
  lemma SavedAcknowledgementRepairs(events: seq<Event>, r: int, first: Submission, again: Event)
    requires TimelyRun(events) && r >= ClockAfter(events) && r !in Run(events).submissions && Assembled(first)
    requires AllFrom(Run(events).sent, r, None) && r !in Run(events).committed
    requires again.CommitEvent? && again.round == r && Assembled(again.made) && again.accepted >= 1 && again.saved
    requires again.stop == Finishes
    ensures var repaired := events + [Failing(r, first)] + [again];
      TimelyRun(repaired) && AlwaysOneHash(repaired, r)
  {
    var failed := events + [Failing(r, first)];
    FailingLeavesMemoryOnly(events, r, first);
    RunMore(failed, again);
    RunBase(failed, r);
    FailingCommitsNothing(Run(events), r, first);
    RunMore(events, Failing(r, first));
    SavedTickRepairs(Run(failed), r, again);
    OneHashExactly(failed + [again], r);
  }

  // -- how many rounds a state file keeps -------------------------------------------------

  lemma {:induction false} Oldest(rounds: set<int>) returns (oldest: int)
    requires rounds != {}
    ensures oldest in rounds && forall r | r in rounds :: oldest <= r
  {
    var some := Pick(rounds);
    var rest := rounds - {some};
    oldest := some;
    if rest != {} {
      var other := Oldest(rest);
      oldest := if other < some then other else some;
    }
    forall r | r in rounds ensures oldest <= r {
      assert r == some || r in rest;
    }
  }

  ghost function LaterThan(rounds: set<int>, r: int): set<int> {
    set q | q in rounds && q > r
  }

  lemma WithoutOldest(rounds: set<int>, oldest: int)
    requires oldest in rounds && forall r | r in rounds :: oldest <= r
    ensures var rest := rounds - {oldest};
      Tracked(rounds) == Tracked(rest) + if |rest| < MAX_TRACKED_ROUNDS then {oldest} else {}
  {
    var rest := rounds - {oldest};
    assert LaterThan(rounds, oldest) == rest;
    forall r | r in rest ensures LaterThan(rounds, r) == LaterThan(rest, r) {
    }
    assert forall r | r in rounds :: (set q | q in rounds && q > r) == LaterThan(rounds, r);
    assert forall r | r in rest :: (set q | q in rest && q > r) == LaterThan(rest, r);
  }

  /** A state file keeps ten rounds, or all of them where there are fewer, and none earlier than one it drops. */
  lemma {:induction false} TenLatest(rounds: set<int>)
    ensures |Tracked(rounds)| == if |rounds| <= 10 then |rounds| else 10
    ensures forall r, q | r in Tracked(rounds) && q in rounds && q > r :: q in Tracked(rounds)
    decreases rounds
  {
    forall r, q | r in Tracked(rounds) && q in rounds && q > r ensures q in Tracked(rounds) {
      Fewer(LaterThan(rounds, q), LaterThan(rounds, r));
    }
    if rounds != {} {
      var oldest := Oldest(rounds);
      TenLatest(rounds - {oldest});
      WithoutOldest(rounds, oldest);
    }
  }

  // -- a reveal follows its acknowledged commit -------------------------------------------

  /** A commit of round `r` was sent and acknowledged by some validator. */
  ghost predicate Acknowledged(events: seq<Event>, r: int) {
    exists k :: 0 <= k < |events| && events[k].CommitEvent? && events[k].round == r && events[k].accepted >= 1
  }

  ghost predicate CommitSentBefore(sent: seq<Message>, r: int, i: nat) {
    exists j :: 0 <= j < i && j < |sent| && sent[j].Commit? && sent[j].round == r
  }

  ghost predicate MarkedCommitted(m: Miner, r: int) {
    r in m.committed || (r in m.disk && m.disk[r].committed)
  }

  ghost predicate Backed(events: seq<Event>, m: Miner, r: int) {
    MarkedCommitted(m, r) ==> Acknowledged(events, r) && CommitSentBefore(m.sent, r, |m.sent|)
  }

  lemma StillAcknowledged(events: seq<Event>, e: Event, r: int)
    requires Acknowledged(events, r)
    ensures Acknowledged(events + [e], r)
  {
    var k :| 0 <= k < |events| && events[k].CommitEvent? && events[k].round == r && events[k].accepted >= 1;
    assert (events + [e])[k] == events[k];
  }

  lemma StillSent(sent: seq<Message>, longer: seq<Message>, r: int)
    requires sent <= longer && CommitSentBefore(sent, r, |sent|)
    ensures CommitSentBefore(longer, r, |longer|)
  {
    var j :| 0 <= j < |sent| && sent[j].Commit? && sent[j].round == r;
    assert longer[j] == sent[j];
  }

  /** What one event adds: marks and messages of round `r` only as an acknowledged commit, or a reveal of a marked
      round, adds them. */
  ghost predicate AddsFairly(m: Miner, e: Event, n: Miner, r: int) {
    && m.sent <= n.sent <= m.sent + n.sent[|m.sent|..] && |n.sent| <= |m.sent| + 1
    && (MarkedCommitted(n, r) ==>
          || MarkedCommitted(m, r)
          || (e.CommitEvent? && e.round == r && e.accepted >= 1 && CommitSentBefore(n.sent, r, |n.sent|)))
    && (|n.sent| > |m.sent| && n.sent[|m.sent|].round == r && n.sent[|m.sent|].Reveal? ==> MarkedCommitted(m, r))
  }

  lemma CommitAdds(m: Miner, e: Event, r: int)
    requires e.CommitEvent?
    ensures AddsFairly(m, e, Step(m, e), r)
  {
    var n := Step(m, e);
    if |n.sent| > |m.sent| && e.round == r {
      assert n.sent[|m.sent|].Commit? && n.sent[|m.sent|].round == r;
    }
  }

  lemma StepAdds(m: Miner, e: Event, r: int)
    ensures AddsFairly(m, e, Step(m, e), r)
  {
    match e
    case CommitEvent(round, made, persisted, accepted, saved, stop) => CommitAdds(m, e, r);
    case RevealEvent(round, accepted, saved, stop) =>
    case CrashEvent =>
  }

  lemma {:induction false} RevealBacked(events: seq<Event>, r: int)
    ensures Backed(events, Run(events), r)
    decreases |events|
  {
    if events != [] {
      var front, e := events[..|events| - 1], events[|events| - 1];
      RevealBacked(front, r);
      var m, n := Run(front), Run(events);
      StepAdds(m, e, r);
      assert events == front + [e];
      if Acknowledged(front, r) {
        StillAcknowledged(front, e, r);
      }
      if CommitSentBefore(m.sent, r, |m.sent|) {
        StillSent(m.sent, n.sent, r);
      }
    }
  }

  /** Over any run of ticks and crashes, a reveal is sent only for a round of which a commit went out before and was
      acknowledged by some validator. */
  lemma RevealFollowsCommit(events: seq<Event>, e: Event, r: int)
    requires var m, n := Run(events), Step(Run(events), e);
      |n.sent| > |m.sent| && n.sent[|m.sent|].Reveal? && n.sent[|m.sent|].round == r
    ensures Acknowledged(events, r) && CommitSentBefore(Run(events).sent, r, |Run(events).sent|)
  {
    RevealBacked(events, r);
    StepAdds(Run(events), e, r);
  }
}
