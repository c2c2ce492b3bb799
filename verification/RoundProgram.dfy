/** One round's way from open to closed, driven tick by tick. */
module RoundProgram {
  import opened Wrappers

  datatype RoundState = RoundOpen | RoundRevealed | RoundPartiallyScored | RoundClosed

  /** How the orchestrator's call for one horizon ends. */
  datatype Attempt = Completes | LeavesPartial | RunsOutOfTime | Fails(error: string)

  /** What one tick finds: the clock, each horizon's due time and outcome, and where the budget is already spent. */
  datatype Conditions = Conditions(now: int, dueAt: map<int, int>, attempts: map<int, Attempt>, spent: set<int>)

  datatype Walk = Walk(marked: set<int>, allResolved: bool, scored: bool, lastError: Option<string>)

  predicate Covers(t: Conditions, horizons: seq<int>) {
    forall i | 0 <= i < |horizons| :: horizons[i] in t.dueAt && horizons[i] in t.attempts
  }

  /** The walk over the horizons, in order; a spent budget or deadline ends it. */
  function WalkFrom(horizons: seq<int>, w: Walk, t: Conditions): Walk
    requires Covers(t, horizons)
    decreases |horizons|
  {
    if horizons == [] then w else
      var h := horizons[0];
      if h in w.marked then WalkFrom(horizons[1..], w, t)
      else if t.now <= t.dueAt[h] then WalkFrom(horizons[1..], w.(allResolved := false), t)
      else if h in t.spent then w.(allResolved := false)
      else
        match t.attempts[h]
        case RunsOutOfTime => w.(allResolved := false)
        case Fails(error) => WalkFrom(horizons[1..], w.(allResolved := false, lastError := Some(error)), t)
        case LeavesPartial => WalkFrom(horizons[1..], w.(scored := true), t)
        case Completes => WalkFrom(horizons[1..], w.(scored := true, marked := w.marked + {h}), t)
  }

  predicate AllMarked(horizons: seq<int>, marked: set<int>) {
    forall i | 0 <= i < |horizons| :: horizons[i] in marked
  }

  function Start(marked: set<int>): Walk {
    Walk(marked, true, false, None)
  }

  function Settled(state: RoundState, horizons: seq<int>, w: Walk): RoundState {
    if w.allResolved && AllMarked(horizons, w.marked) then RoundClosed
    else if w.scored then RoundPartiallyScored
    else state
  }

  datatype Progress = Progress(state: RoundState, marked: set<int>)

  function ResolveDueRun(p: Progress, horizons: seq<int>, t: Conditions): Progress
    requires Covers(t, horizons)
  {
    var w := WalkFrom(horizons, Start(p.marked), t);
    Progress(Settled(p.state, horizons, w), w.marked)
  }

  /** One tick's advance of the round: reveal once the reveal window is over, then resolve what is due. */
  function AdvanceRun(p: Progress, horizons: seq<int>, revealClose: int, t: Conditions): Progress
    requires Covers(t, horizons)
  {
    var q := if p.state == RoundOpen && t.now > revealClose then p.(state := RoundRevealed) else p;
    if q.state == RoundRevealed || q.state == RoundPartiallyScored then ResolveDueRun(q, horizons, t) else q
  }

  class Program {
    const horizons: seq<int>
    const revealClose: int
    var state: RoundState
    var marked: set<int>

    constructor (horizons: seq<int>, revealClose: int)
      ensures this.horizons == horizons && this.revealClose == revealClose && Now() == Progress(RoundOpen, {})
    {
      this.horizons, this.revealClose, state, marked := horizons, revealClose, RoundOpen, {};
    }

    ghost function Now(): Progress
      reads this
    {
      Progress(state, marked)
    }

    method ResolveDue(t: Conditions) returns (scored: bool, lastError: Option<string>)
      requires Covers(t, horizons)
      modifies this`state, this`marked
      ensures Now() == ResolveDueRun(old(Now()), horizons, t)
      ensures var w := WalkFrom(horizons, Start(old(marked)), t);
        scored == w.scored && lastError == w.lastError
    {
      var allResolved := true;
      scored, lastError := false, None;
      ghost var target := WalkFrom(horizons, Start(marked), t);
      var i := 0;
      while i < |horizons|
        invariant i <= |horizons| && state == old(state)
        invariant WalkFrom(horizons[i..], Walk(marked, allResolved, scored, lastError), t) == target
      {
        var h := horizons[i];
        assert horizons[i..][1..] == horizons[i + 1..];
        i := i + 1;
        if h in marked {
          continue;
        }
        if t.now <= t.dueAt[h] {
          allResolved := false;
          continue;
        }
        if h in t.spent || t.attempts[h].RunsOutOfTime? {
          allResolved := false;
          break;
        }
        if t.attempts[h].Fails? {
          lastError := Some(t.attempts[h].error);
          allResolved := false;
          continue;
        }
        if t.attempts[h].Completes? {
          marked := marked + {h};
        }
        scored := true;
      }
      if allResolved && AllMarked(horizons, marked) {
        state := RoundClosed;
      } else if scored {
        state := RoundPartiallyScored;
      }
    }

    method AdvanceOneRound(t: Conditions) returns (scored: bool, lastError: Option<string>)
      requires Covers(t, horizons)
      modifies this`state, this`marked
      ensures Now() == AdvanceRun(old(Now()), horizons, revealClose, t)
    {
      if state == RoundOpen && t.now > revealClose {
        state := RoundRevealed;
      }
      if state == RoundRevealed || state == RoundPartiallyScored {
        scored, lastError := ResolveDue(t);
      } else {
        scored, lastError := false, None;
      }
    }
  }

  // -- a round is closed exactly when every horizon is marked ---------------------------

  lemma {:induction false} WalkFacts(horizons: seq<int>, w: Walk, t: Conditions)
    requires Covers(t, horizons)
    ensures var r := WalkFrom(horizons, w, t);
      && w.marked <= r.marked
      && (w.allResolved && AllMarked(horizons, r.marked) ==> r.allResolved)
    decreases |horizons|
  {
    if horizons != [] {
      var h := horizons[0];
      if h in w.marked {
        WalkFacts(horizons[1..], w, t);
      } else if t.now <= t.dueAt[h] {
        WalkFacts(horizons[1..], w.(allResolved := false), t);
      } else if h !in t.spent {
        match t.attempts[h]
        case RunsOutOfTime =>
        case Fails(error) => WalkFacts(horizons[1..], w.(allResolved := false, lastError := Some(error)), t);
        case LeavesPartial => WalkFacts(horizons[1..], w.(scored := true), t);
        case Completes => WalkFacts(horizons[1..], w.(scored := true, marked := w.marked + {h}), t);
      }
      UnmarkedHorizon(horizons, w, t);
    }
  }

  /** A horizon that ends or fails its turn stays unmarked, unless it appears again. */
  lemma {:induction false} UnmarkedHorizon(horizons: seq<int>, w: Walk, t: Conditions)
    requires Covers(t, horizons)
    ensures var r := WalkFrom(horizons, w, t);
      forall h | h in r.marked && h !in w.marked ::
          h in horizons && t.now > t.dueAt[h] && h !in t.spent && t.attempts[h].Completes?
    decreases |horizons|
  {
    if horizons != [] {
      var h := horizons[0];
      if h in w.marked {
        UnmarkedHorizon(horizons[1..], w, t);
      } else if t.now <= t.dueAt[h] {
        UnmarkedHorizon(horizons[1..], w.(allResolved := false), t);
      } else if h !in t.spent {
        match t.attempts[h]
        case RunsOutOfTime =>
        case Fails(error) => UnmarkedHorizon(horizons[1..], w.(allResolved := false, lastError := Some(error)), t);
        case LeavesPartial => UnmarkedHorizon(horizons[1..], w.(scored := true), t);
        case Completes => UnmarkedHorizon(horizons[1..], w.(scored := true, marked := w.marked + {h}), t);
      }
    }
  }

  /** What ticks and crashes keep: a closed round has every horizon marked, an open one none. */
  ghost predicate Consistent(p: Progress, horizons: seq<int>) {
    && (p.state == RoundClosed ==> AllMarked(horizons, p.marked))
    && (p.state == RoundOpen ==> p.marked == {})
  }

  ghost function Rank(s: RoundState): nat {
    match s
    case RoundOpen => 0
    case RoundRevealed => 1
    case RoundPartiallyScored => 2
    case RoundClosed => 3
  }

  /** A tick, or one whose process dies after the first `reached` horizons: their markers are stored, each with its own
      pass, and so is the reveal, but the round's state is not yet written. */
  datatype Event = Tick(found: Conditions) | CrashedTick(found: Conditions, reached: nat)

  ghost predicate Fits(e: Event, horizons: seq<int>) {
    Covers(e.found, horizons) && (e.CrashedTick? ==> e.reached <= |horizons|)
  }

  ghost function Happen(p: Progress, horizons: seq<int>, revealClose: int, e: Event): Progress
    requires Fits(e, horizons)
  {
    match e
    case Tick(t) => AdvanceRun(p, horizons, revealClose, t)
    case CrashedTick(t, reached) =>
      var q := if p.state == RoundOpen && t.now > revealClose then p.(state := RoundRevealed) else p;
      if q.state == RoundRevealed || q.state == RoundPartiallyScored
      then q.(marked := WalkFrom(horizons[..reached], Start(q.marked), t).marked) else q
  }

  /** Neither a tick nor a crash takes a round back or unmarks a horizon, and a closed round stays as it is. */
  lemma EventKeepsConsistent(p: Progress, horizons: seq<int>, revealClose: int, e: Event)
    requires Consistent(p, horizons) && Fits(e, horizons)
    ensures var q := Happen(p, horizons, revealClose, e);
      && Consistent(q, horizons) && Rank(q.state) >= Rank(p.state) && p.marked <= q.marked
      && (p.state == RoundClosed ==> q == p)
  {
    match e
    case Tick(t) => WalkFacts(horizons, Start(p.marked), t);
    case CrashedTick(t, reached) => WalkFacts(horizons[..reached], Start(p.marked), t);
  }

  /** Whatever crashed before, after a whole tick the round is closed if and only if every horizon is marked. */
  lemma TickClosesIffAllMarked(p: Progress, horizons: seq<int>, revealClose: int, t: Conditions)
    requires Consistent(p, horizons) && Covers(t, horizons) && horizons != []
    ensures var q := AdvanceRun(p, horizons, revealClose, t);
      q.state == RoundClosed <==> AllMarked(horizons, q.marked)
  {
    WalkFacts(horizons, Start(p.marked), t);
    assert p.marked == {} ==> horizons[0] !in p.marked;
  }

  /** So a round whose process died between its last marker and its state is closed by its next tick, whatever that
      tick finds. */
  lemma CrashedRoundCloses(p: Progress, horizons: seq<int>, revealClose: int, t: Conditions)
    requires Consistent(p, horizons) && Covers(t, horizons) && horizons != [] && AllMarked(horizons, p.marked)
    ensures AdvanceRun(p, horizons, revealClose, t).state == RoundClosed
  {
    EventKeepsConsistent(p, horizons, revealClose, Tick(t));
    TickClosesIffAllMarked(p, horizons, revealClose, t);
  }

  ghost predicate AllFit(events: seq<Event>, horizons: seq<int>) {
    forall i | 0 <= i < |events| :: Fits(events[i], horizons)
  }

  ghost function Happened(horizons: seq<int>, revealClose: int, events: seq<Event>): Progress
    requires AllFit(events, horizons)
    decreases |events|
  {
    if events == [] then Progress(RoundOpen, {})
    else Happen(Happened(horizons, revealClose, events[..|events| - 1]), horizons, revealClose, events[|events| - 1])
  }

  /** After any ticks and crashes a closed round has every horizon resolved completely; and after any that end in a
      whole tick, it is closed if and only if every horizon was. */
  lemma {:induction false} ClosedIffAllResolved(horizons: seq<int>, revealClose: int, events: seq<Event>)
    requires AllFit(events, horizons) && horizons != []
    ensures var p := Happened(horizons, revealClose, events);
      && Consistent(p, horizons)
      && (events != [] && events[|events| - 1].Tick? ==> (p.state == RoundClosed <==> AllMarked(horizons, p.marked)))
    decreases |events|
  {
    if events != [] {
      var front, e := events[..|events| - 1], events[|events| - 1];
      ClosedIffAllResolved(horizons, revealClose, front);
      EventKeepsConsistent(Happened(horizons, revealClose, front), horizons, revealClose, e);
      if e.Tick? {
        TickClosesIffAllMarked(Happened(horizons, revealClose, front), horizons, revealClose, e.found);
      }
    }
  }

  // -- which horizons a tick marks ------------------------------------------------

  /** The walk stops at `h`: it is due and not done, and no budget or time is left for it. */
  ghost predicate Stops(t: Conditions, marked: set<int>, h: int)
    requires h in t.dueAt && h in t.attempts
  {
    h !in marked && t.now > t.dueAt[h] && (h in t.spent || t.attempts[h].RunsOutOfTime?)
  }

  /** `h` is due, not done, and its call scores something. */
  ghost predicate Scores(t: Conditions, marked: set<int>, h: int)
    requires h in t.dueAt && h in t.attempts
  {
    && h !in marked && t.now > t.dueAt[h] && h !in t.spent
    && (t.attempts[h].LeavesPartial? || t.attempts[h].Completes?)
  }

  ghost predicate Reaches(horizons: seq<int>, marked: set<int>, t: Conditions, i: nat)
    requires Covers(t, horizons)
  {
    i < |horizons| && forall j | 0 <= j < i :: !Stops(t, marked, horizons[j])
  }

  ghost predicate ReachesScore(horizons: seq<int>, marked: set<int>, t: Conditions, i: nat)
    requires Covers(t, horizons)
  {
    Reaches(horizons, marked, t, i) && Scores(t, marked, horizons[i])
  }

  ghost predicate ReachesEnd(horizons: seq<int>, marked: set<int>, t: Conditions, i: nat, h: int)
    requires Covers(t, horizons)
  {
    ReachesScore(horizons, marked, t, i) && horizons[i] == h && t.attempts[h].Completes?
  }

  ghost predicate WalksTo(horizons: seq<int>, w: Walk, t: Conditions, r: Walk)
    requires Covers(t, horizons)
  {
    && (r.scored <==> w.scored || exists i: nat :: ReachesScore(horizons, w.marked, t, i))
    && forall h :: h in r.marked <==> h in w.marked || exists i: nat :: ReachesEnd(horizons, w.marked, t, i, h)
  }

  lemma TailWalksTo(horizons: seq<int>, w: Walk, v: Walk, t: Conditions, r: Walk)
    requires Covers(t, horizons) && horizons != [] && WalksTo(horizons[1..], v, t, r)
    requires !Stops(t, w.marked, horizons[0])
    requires v.scored == (w.scored || Scores(t, w.marked, horizons[0]))
    requires v.marked == if Scores(t, w.marked, horizons[0]) && t.attempts[horizons[0]].Completes?
                         then w.marked + {horizons[0]} else w.marked
    ensures WalksTo(horizons, w, t, r)
  {
    var first, rest := horizons[0], horizons[1..];
    forall i: nat | i < |rest| ensures Reaches(horizons, w.marked, t, i + 1) <==> Reaches(rest, v.marked, t, i) {
      assert forall j | 0 <= j < i :: rest[j] == horizons[j + 1];
    }
    if Scores(t, w.marked, first) {
      assert ReachesScore(horizons, w.marked, t, 0);
    }
    if i: nat :| ReachesScore(rest, v.marked, t, i) {
      assert ReachesScore(horizons, w.marked, t, i + 1);
    }
    if i: nat :| ReachesScore(horizons, w.marked, t, i) && !r.scored {
      assert ReachesScore(rest, v.marked, t, i - 1);
    }
    forall h ensures h in r.marked <==> h in w.marked || exists i: nat :: ReachesEnd(horizons, w.marked, t, i, h) {
      if i: nat :| ReachesEnd(rest, v.marked, t, i, h) {
        assert ReachesEnd(horizons, w.marked, t, i + 1, h);
      }
      if h in v.marked && h !in w.marked {
        assert ReachesEnd(horizons, w.marked, t, 0, h);
      }
      if i: nat :| ReachesEnd(horizons, w.marked, t, i, h) && h !in v.marked {
        assert ReachesEnd(rest, v.marked, t, i - 1, h);
      }
    }
  }

  lemma {:induction false} WalkExactly(horizons: seq<int>, w: Walk, t: Conditions)
    requires Covers(t, horizons)
    ensures WalksTo(horizons, w, t, WalkFrom(horizons, w, t))
    decreases |horizons|
  {
    if horizons != [] {
      var h := horizons[0];
      var v := if h in w.marked then w
               else if t.now <= t.dueAt[h] then w.(allResolved := false)
               else match t.attempts[h]
                    case RunsOutOfTime => w
                    case Fails(error) => w.(allResolved := false, lastError := Some(error))
                    case LeavesPartial => w.(scored := true)
                    case Completes => w.(scored := true, marked := w.marked + {h});
      if Stops(t, w.marked, h) {
        assert forall i: nat :: Reaches(horizons, w.marked, t, i) ==> i == 0;
      } else {
        WalkExactly(horizons[1..], v, t);
        TailWalksTo(horizons, w, v, t, WalkFrom(horizons, w, t));
      }
    }
  }

  /** The round takes part in a tick: it is open with its reveal window over, or revealed and not yet closed. */
  ghost predicate InPlay(p: Progress, revealClose: int, t: Conditions) {
    p.state == RoundRevealed || p.state == RoundPartiallyScored || (p.state == RoundOpen && t.now > revealClose)
  }

  /** What one tick makes of a round: a horizon is newly marked exactly when it is due, the walk reaches it with budget
      and time left at every due one before, and its call completes; and short of closed, the round is partially scored
      exactly when a call scored something, else revealed. */
  lemma TickMarksExactly(p: Progress, horizons: seq<int>, revealClose: int, t: Conditions)
    requires Covers(t, horizons)
    ensures var q := AdvanceRun(p, horizons, revealClose, t);
      && (!InPlay(p, revealClose, t) ==> q == p)
      && (InPlay(p, revealClose, t) ==>
            && (forall h :: h in q.marked <==>
                  h in p.marked || exists i: nat :: ReachesEnd(horizons, p.marked, t, i, h))
            && (q.state != RoundClosed ==>
                  q.state == if exists i: nat :: ReachesScore(horizons, p.marked, t, i) then RoundPartiallyScored
                             else if p.state == RoundOpen then RoundRevealed else p.state))
  {
    WalkExactly(horizons, Start(p.marked), t);
  }
}
