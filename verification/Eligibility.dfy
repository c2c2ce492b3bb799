/** Which hotkeys count as deregistered: those absent from enough metagraph generations in a row. */
module Eligibility {
  type Hotkey = string

  const DEREGISTRATION_CONFIRMATION_SYNCS := 2

  datatype Tracker = Tracker(missing: map<Hotkey, nat>, last: set<Hotkey>)

  function Seed(registered: set<Hotkey>, persisted: set<Hotkey>): Tracker {
    Tracker(map[], registered + persisted)
  }

  function Advance(t: Tracker, current: set<Hotkey>): Tracker {
    var absent := (t.missing.Keys + t.last) - current;
    Tracker(map h | h in absent :: (if h in t.missing then t.missing[h] else 0) + 1, current)
  }

  function Confirmed(t: Tracker): set<Hotkey> {
    set h | h in t.missing && t.missing[h] >= DEREGISTRATION_CONFIRMATION_SYNCS
  }

  /** Stop tracking the confirmed hotkeys whose archival is complete. */
  function Forget(t: Tracker, active: set<Hotkey>, unfinished: set<Hotkey>): Tracker {
    t.(missing := map h | h in t.missing && !(h in Confirmed(t) && h !in active && h !in unfinished) :: t.missing[h])
  }

  ghost function OneMoreAbsence(missing: map<Hotkey, nat>, absent: set<Hotkey>): map<Hotkey, nat> {
    map h | h in missing.Keys + absent ::
      (if h in missing then missing[h] else 0) + if h in absent then 1 else 0
  }

  lemma AdvanceByParts(t: Tracker, current: set<Hotkey>, missing: map<Hotkey, nat>)
    requires missing == OneMoreAbsence(t.missing, (t.missing.Keys + t.last) - current) - current
    ensures Tracker(missing, current) == Advance(t, current)
  {
  }

  // -- over a whole history ---------------------------------------------------------------

  datatype Event = Generation(current: set<Hotkey>) | Settle(active: set<Hotkey>, unfinished: set<Hotkey>)

  ghost function Run(base: set<Hotkey>, events: seq<Event>): Tracker
    decreases |events|
  {
    if events == [] then Seed(base, {}) else
      var before := Run(base, events[..|events| - 1]);
      match events[|events| - 1]
      case Generation(current) => Advance(before, current)
      case Settle(active, unfinished) => Forget(before, active, unfinished)
  }

  /** The metagraph generations of a run, oldest first. */
  ghost function Generations(events: seq<Event>): seq<set<Hotkey>>
    decreases |events|
  {
    if events == [] then [] else
      var before := Generations(events[..|events| - 1]);
      match events[|events| - 1]
      case Generation(current) => before + [current]
      case Settle(_, _) => before
  }

  /** The trailing run of generations without `h`. */
  ghost function Absences(h: Hotkey, generations: seq<set<Hotkey>>): nat
    decreases |generations|
  {
    if generations == [] || h in generations[|generations| - 1] then 0
    else 1 + Absences(h, generations[..|generations| - 1])
  }

  /** `h` was in the baseline or a generation, and has not been settled since it was last there. */
  ghost predicate Followed(base: set<Hotkey>, events: seq<Event>, h: Hotkey)
    decreases |events|
  {
    if events == [] then h in base else
      var front := events[..|events| - 1];
      match events[|events| - 1]
      case Generation(current) => h in current || Followed(base, front, h)
      case Settle(active, unfinished) =>
        Followed(base, front, h)
        && !(Absences(h, Generations(front)) >= DEREGISTRATION_CONFIRMATION_SYNCS && h !in active && h !in unfinished)
  }

  /** A followed hotkey's counter is exactly its trailing run of absent generations; no other hotkey has one. */
  lemma {:induction false} CountersAreTrailingAbsences(base: set<Hotkey>, events: seq<Event>, h: Hotkey)
    ensures var t := Run(base, events);
      var n := Absences(h, Generations(events));
      && (h in t.missing <==> Followed(base, events, h) && n > 0)
      && (h in t.missing ==> t.missing[h] == n)
      && (h in t.last <==> if Generations(events) == [] then h in base else n == 0)
      && (h in t.last ==> Followed(base, events, h))
      && (Followed(base, events, h) ==> h in t.last || n > 0)
    decreases |events|
  {
    if events != [] {
      var front := events[..|events| - 1];
      CountersAreTrailingAbsences(base, front, h);
      match events[|events| - 1]
      case Generation(current) =>
        var g := Generations(events);
        assert g[..|g| - 1] == Generations(front);
      case Settle(active, unfinished) =>
    }
  }

  ghost predicate MissedLastTwo(generations: seq<set<Hotkey>>, h: Hotkey) {
    |generations| >= 2 && h !in generations[|generations| - 1] && h !in generations[|generations| - 2]
  }

  /** So a hotkey is confirmed deregistered exactly when it is followed and missed the last two generations. */
  lemma ConfirmedExactly(base: set<Hotkey>, events: seq<Event>, h: Hotkey)
    ensures h in Confirmed(Run(base, events)) <==>
      Followed(base, events, h) && MissedLastTwo(Generations(events), h)
  {
    CountersAreTrailingAbsences(base, events, h);
    var g := Generations(events);
    if |g| >= 2 && h !in g[|g| - 1] {
      assert g[..|g| - 1][|g| - 2] == g[|g| - 2];
    }
  }

  /** A hotkey remembered at the baseline but already absent then is confirmed after two generations without it. */
  lemma PersistedReachesConfirmation(registered: set<Hotkey>, persisted: set<Hotkey>, first: set<Hotkey>,
                                     second: set<Hotkey>, h: Hotkey)
    requires h in persisted && h !in first && h !in second
    ensures h in Confirmed(Run(registered + persisted, [Generation(first), Generation(second)]))
    ensures h !in Confirmed(Run(registered + persisted, [Generation(first)]))
  {
    var one, two := [Generation(first)], [Generation(first), Generation(second)];
    assert one[..0] == [] && two[..1] == one;
    assert Generations(one) == [first] && Generations(two) == [first, second];
    assert Followed(registered + persisted, one, h);
    ConfirmedExactly(registered + persisted, one, h);
    ConfirmedExactly(registered + persisted, two, h);
  }

  // -- the tracker against its whole history ---------------------------------------------

  class DeregistrationTracker {
    var missing: map<Hotkey, nat>
    var last: set<Hotkey>
    ghost var base: set<Hotkey>
    ghost var events: seq<Event>

    ghost function State(): Tracker
      reads this
    {
      Tracker(missing, last)
    }

    /** The fields are what the run of events since the last seeding leaves. */
    ghost predicate Valid()
      reads this
    {
      State() == Run(base, events)
    }

    constructor ()
      ensures Valid() && base == {} && events == []
    {
      missing, last, base, events := map[], {}, {}, [];
    }

    /** Start over: every hotkey registered now, or persisted though absent, is followed from here. */
    method SeedFrom(registered: set<Hotkey>, persisted: set<Hotkey>)
      modifies this
      ensures Valid() && base == registered + persisted && events == []
      ensures forall h :: Followed(base, events, h) <==> h in registered || h in persisted
    {
      missing, last := map[], registered + persisted;
      base, events := registered + persisted, [];
    }

    method RecordGeneration(current: set<Hotkey>)
      requires Valid()
      modifies this
      ensures Valid() && base == old(base) && events == old(events) + [Generation(current)]
    {
      ghost var was := State();
      CountAbsences((missing.Keys + last) - current);
      missing := missing - current;
      last := current;
      AdvanceByParts(was, current, missing);
      events := events + [Generation(current)];
    }

    /** The loop over the absent hotkeys. */
    method CountAbsences(absent: set<Hotkey>)
      modifies this`missing
      ensures missing == OneMoreAbsence(old(missing), absent)
    {
      ghost var was := missing;
      var rest := absent;
      while rest != {}
        invariant rest <= absent && missing == OneMoreAbsence(was, absent - rest)
        decreases rest
      {
        var h :| h in rest;
        missing := missing[h := (if h in missing then missing[h] else 0) + 1];
        rest := rest - {h};
      }
      assert absent - rest == absent;
    }

    /** The hotkeys confirmed deregistered: followed, and absent from the last two generations. */
    method ConfirmedHotkeys() returns (r: set<Hotkey>)
      requires Valid()
      ensures forall h :: h in r <==> Followed(base, events, h) && MissedLastTwo(Generations(events), h)
    {
      r := set h | h in missing && missing[h] >= DEREGISTRATION_CONFIRMATION_SYNCS;
      forall h ensures h in r <==> Followed(base, events, h) && MissedLastTwo(Generations(events), h) {
        ConfirmedExactly(base, events, h);
      }
    }

    method ForgetSettled(active: set<Hotkey>, unfinished: set<Hotkey>)
      requires Valid()
      modifies this
      ensures Valid() && base == old(base) && events == old(events) + [Settle(active, unfinished)]
    {
      ghost var was := State();
      var confirmed := ConfirmedHotkeys();
      forall h ensures h in confirmed <==> h in Confirmed(was) {
        ConfirmedExactly(base, events, h);
      }
      missing := missing - (set h | h in confirmed && h !in active && h !in unfinished);
      assert missing == Forget(was, active, unfinished).missing;
      events := events + [Settle(active, unfinished)];
    }
  }
}
