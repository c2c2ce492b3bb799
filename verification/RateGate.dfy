/** Pacing of chain calls: a shaper for single messages, and an adaptive gate for whole calls. */
module RateGate {
  import opened Wrappers
  import opened Sets

  // -- the message shaper -------------------------------------------------------------

  /** The slot that a message reading the clock at `now` reserves, with the next arrival at `arrival`. */
  function Slot(arrival: Option<real>, now: real): real {
    if arrival.Some? && arrival.value > now then arrival.value else now
  }

  /** When it may be sent: at once, or when its arrival less the burst slack comes. */
  function SendTime(arrival: Option<real>, now: real, slack: real): real {
    if arrival.Some? && arrival.value - slack > now then arrival.value - slack else now
  }

  /** What the shaper has done: each message is sent no later than its slot, slots are an interval apart, and a
      message is sent no earlier than the burst slack before the slot after the previous one's. */
  ghost predicate Shaped(slots: seq<real>, sends: seq<real>, interval: real, slack: real) {
    && |slots| == |sends|
    && (forall i | 0 <= i < |slots| :: sends[i] <= slots[i])
    && (forall i | 0 < i < |slots| ::
          slots[i] >= slots[i - 1] + interval && sends[i] >= slots[i - 1] + interval - slack)
  }

  class RpcMessageLimiter {
    const interval: real
    const slack: real
    const burst: nat
    var nextArrival: Option<real>
    ghost var slots: seq<real>
    ghost var sends: seq<real>

    ghost predicate Valid()
      reads this
    {
      && interval > 0.0 && burst >= 1 && slack == interval * (burst - 1) as real && slack >= 0.0
      && Shaped(slots, sends, interval, slack)
      && nextArrival == if slots == [] then None else Some(slots[|slots| - 1] + interval)
    }

    constructor (ratePerSecond: real, burst: nat)
      requires ratePerSecond > 0.0 && burst >= 1
      ensures Valid() && sends == [] && interval * ratePerSecond == 1.0 && this.burst == burst
    {
      var gap := 1.0 / ratePerSecond;
      Inverse(ratePerSecond);
      SlackNotNegative(gap, burst);
      interval, slack, this.burst := gap, gap * (burst - 1) as real, burst;
      nextArrival, slots, sends := None, [], [];
    }

    /** Reserve a slot; the caller sleeps for `wait` before it sends. */
    method Acquire(now: real) returns (wait: real)
      requires Valid()
      modifies this`nextArrival, this`slots, this`sends
      ensures Valid()
      ensures wait >= 0.0 && sends == old(sends) + [now + wait]
      ensures now + wait == SendTime(old(nextArrival), now, slack)
      ensures nextArrival == Some(Slot(old(nextArrival), now) + interval)
      ensures wait > 0.0 ==> old(nextArrival).Some? && now + wait == old(nextArrival).value - slack
      ensures nextArrival == Some(interval + now)
           || (old(nextArrival).Some? && old(nextArrival).value > now
               && nextArrival == Some(interval + old(nextArrival).value))
    {
      var arrival := if nextArrival.None? then now else nextArrival.value;
      wait := arrival - slack - now;
      if wait < 0.0 {
        wait := 0.0;
      }
      var slot := if arrival > now then arrival else now;
      slots, sends := slots + [slot], sends + [now + wait];
      nextArrival := Some(slot + interval);
    }
  }

  lemma Inverse(x: real)
    requires x > 0.0
    ensures 1.0 / x > 0.0 && (1.0 / x) * x == 1.0
  {
  }

  lemma SlackNotNegative(gap: real, burst: nat)
    requires gap > 0.0 && burst >= 1
    ensures gap * (burst - 1) as real >= 0.0
  {
  }

  lemma OneMore(n: real, interval: real)
    ensures (n + 1.0) * interval == n * interval + interval
  {
  }

  lemma {:induction false} SlotsApart(slots: seq<real>, sends: seq<real>, interval: real, slack: real, i: nat, j: nat)
    requires Shaped(slots, sends, interval, slack) && i <= j < |slots|
    ensures slots[j] >= slots[i] + (j - i) as real * interval
    decreases j
  {
    if i < j {
      SlotsApart(slots, sends, interval, slack, i, j - 1);
      OneMore((j - 1 - i) as real, interval);
      assert (j - i) as real == (j - 1 - i) as real + 1.0;
    }
  }

  /** Two messages `j - i` apart are sent at least that many intervals apart, less the burst. */
  lemma SendsApart(slots: seq<real>, sends: seq<real>, interval: real, slack: real, burst: nat, i: nat, j: nat)
    requires Shaped(slots, sends, interval, slack) && i < j < |sends| && burst >= 1
    requires slack == interval * (burst - 1) as real
    ensures sends[j] - sends[i] >= (j - i - burst + 1) as real * interval
  {
    SlotsApart(slots, sends, interval, slack, i, j - 1);
    var n, b := (j - 1 - i) as real, (burst - 1) as real;
    assert (j - i - burst + 1) as real == n + 1.0 - b;
    Combine(n, b, interval, slack);
  }

  lemma Combine(n: real, b: real, interval: real, slack: real)
    requires slack == interval * b
    ensures n * interval + interval - slack == (n + 1.0 - b) * interval
  {
    OneMore(n, interval);
    assert (n + 1.0 - b) * interval == (n + 1.0) * interval - b * interval;
  }

  /** The messages sent in the window of length `width` from `start`. */
  ghost function InWindow(sends: seq<real>, start: real, width: real): set<int> {
    set k: int | 0 <= k < |sends| && start <= sends[k] <= start + width
  }

  lemma {:induction false} Ends(s: set<int>) returns (lo: int, hi: int)
    requires s != {}
    ensures lo in s && hi in s && (forall k | k in s :: lo <= k <= hi) && |s| <= hi - lo + 1
  {
    var k := Pick(s);
    var rest := s - {k};
    if rest == {} {
      assert s == {k};
      lo, hi := k, k;
    } else {
      lo, hi := Ends(rest);
      forall i | i in s ensures i == k || i in rest {
      }
      if k < lo {
        lo := k;
      } else if k > hi {
        hi := k;
      } else {
        Spanned(s, lo, hi);
      }
    }
  }

  lemma {:induction false} Spanned(s: set<int>, lo: int, hi: int)
    requires lo <= hi && forall k | k in s :: lo <= k <= hi
    ensures |s| <= hi - lo + 1
    decreases hi - lo
  {
    var rest := s - {hi};
    assert s <= rest + {hi} && |rest + {hi}| == |rest| + 1;
    Fewer(s, rest + {hi});
    if lo < hi {
      Spanned(rest, lo, hi - 1);
    } else {
      forall k | k in s ensures k == hi {
      }
    }
  }

  lemma MultiplyAtLeast(a: real, b: real, interval: real, width: real)
    requires a <= b && interval > 0.0 && b * interval <= width
    ensures a * interval <= width
  {
    assert (b - a) * interval >= 0.0;
  }

  lemma ExtremeSends(sends: seq<real>, start: real, width: real) returns (lo: nat, hi: nat)
    requires |InWindow(sends, start, width)| > 1
    ensures lo < hi < |sends| && sends[hi] - sends[lo] <= width && |InWindow(sends, start, width)| <= hi - lo + 1
  {
    lo, hi := Ends(InWindow(sends, start, width));
  }

  lemma CountWithin(a: int, b: int, interval: real, width: real)
    requires a <= b && interval > 0.0 && b as real * interval <= width
    ensures a as real * interval <= width
  {
    MultiplyAtLeast(a as real, b as real, interval, width);
  }

  lemma EndsBound(slots: seq<real>, sends: seq<real>, interval: real, slack: real, burst: nat, lo: nat, hi: nat,
                  width: real, count: nat)
    requires Shaped(slots, sends, interval, slack) && burst >= 1 && lo < hi < |sends| && interval > 0.0
    requires slack == interval * (burst - 1) as real && sends[hi] - sends[lo] <= width && count <= hi - lo + 1
    ensures (count - burst) as real * interval <= width
  {
    SendsApart(slots, sends, interval, slack, burst, lo, hi);
    CountWithin(count - burst, hi - lo - burst + 1, interval, width);
  }

  /** Any window carries at most the burst, and one more message for each full interval of its length. */
  lemma WindowBound(slots: seq<real>, sends: seq<real>, interval: real, slack: real, burst: nat, start: real,
                    width: real)
    requires Shaped(slots, sends, interval, slack) && burst >= 1 && interval > 0.0 && width >= 0.0
    requires slack == interval * (burst - 1) as real
    ensures (|InWindow(sends, start, width)| - burst) as real * interval <= width
  {
    var count := |InWindow(sends, start, width)|;
    if count <= 1 {
      CountWithin(count - burst, 0, interval, width);
    } else {
      var lo, hi := ExtremeSends(sends, start, width);
      EndsBound(slots, sends, interval, slack, burst, lo, hi, width, count);
    }
  }

  // -- the adaptive gate ------------------------------------------------------------------

  const INITIAL_RATE := 1.0
  const MAX_RETRY_AFTER_SECONDS := 60.0

  datatype Gate = Gate(rate: real, next: real, retry: real, limited: nat, deferred: nat)

  /** A paced call under way: when it was admitted, and the next-request time it reserved. */
  datatype Ticket = Ticket(admitted: real, reservation: real)

  datatype Turn = Deferred(until: real) | Sleep(delay: real) | Go(ticket: Option<Ticket>)

  function Larger(a: real, b: real): real {
    if a >= b then a else b
  }

  /** One turn of the admission loop, under the lock. */
  function Admit(g: Gate, now: real, essential: bool): (Gate, Turn)
    requires g.rate > 0.0
  {
    if now < g.retry then (g.(deferred := g.deferred + 1), Deferred(g.retry))
    else if essential then (g, Go(None))
    else if g.next - now > 0.0 then (g, Sleep(g.next - now))
    else
      var next := now + 1.0 / g.rate;
      (g.(next := next), Go(Some(Ticket(now, next))))
  }

  function HalvedRate(rate: real): real {
    Larger(1.0 / 60.0, rate * 0.5)
  }

  /** After a throttle answer; `hint` is the delay it asked for, if it did. */
  function Throttled(g: Gate, now: real, hint: Option<real>): Gate
    requires g.rate > 0.0
  {
    var rate := HalvedRate(g.rate);
    var delay := if hint.None? then 1.0 / rate
                 else if hint.value <= MAX_RETRY_AFTER_SECONDS then hint.value else MAX_RETRY_AFTER_SECONDS;
    var retry := Larger(g.retry, now + delay);
    Gate(rate, Larger(g.next, retry), retry, g.limited + 1, g.deferred)
  }

  /** After a paced call succeeded. */
  function Succeeded(g: Gate, now: real, reservation: real): Gate
    requires g.rate > 0.0
  {
    if now < g.retry then g else
      var rate := if g.rate + INITIAL_RATE / 8.0 <= INITIAL_RATE then g.rate + INITIAL_RATE / 8.0 else INITIAL_RATE;
      var recovered := now + 1.0 / rate;
      g.(rate := rate, next := if g.next == reservation then recovered else Larger(g.next, recovered))
  }

  class AdaptiveRpcGate {
    var rate: real
    var next: real
    var retry: real
    var limited: nat
    var deferred: nat

    ghost function State(): Gate
      reads this
    {
      Gate(rate, next, retry, limited, deferred)
    }

    constructor ()
      ensures State() == Gate(INITIAL_RATE, 0.0, 0.0, 0, 0)
    {
      rate, next, retry, limited, deferred := INITIAL_RATE, 0.0, 0.0, 0, 0;
    }

    /** A fresh generation with this one's budget. */
    method Replacement() returns (g: AdaptiveRpcGate)
      ensures fresh(g) && g.State() == State()
    {
      g := new AdaptiveRpcGate();
      g.rate, g.next, g.retry, g.limited, g.deferred := rate, next, retry, limited, deferred;
    }

    method TryCall(now: real, essential: bool) returns (turn: Turn)
      requires rate > 0.0
      modifies this
      ensures (State(), turn) == Admit(old(State()), now, essential)
      ensures rate == old(rate) && retry == old(retry) && (turn.Go? ==> now >= retry)
      ensures turn.Go? && !essential ==> now >= old(next) && (next - now) * rate == 1.0
      ensures turn.Go? ==> turn.ticket == (if essential then None else Some(Ticket(now, next)))
      ensures turn.Deferred? <==> now < retry
      ensures turn.Sleep? <==> now >= retry && !essential && now < old(next)
      ensures turn.Deferred? ==> turn.until == retry && deferred == old(deferred) + 1
      ensures turn.Sleep? ==> turn.delay == next - now
      ensures !turn.Deferred? ==> deferred == old(deferred)
      ensures !turn.Go? || essential ==> next == old(next)
    {
      if now < retry {
        deferred := deferred + 1;
        return Deferred(retry);
      }
      if essential {
        return Go(None);
      }
      var delay := next - now;
      if delay <= 0.0 {
        next := now + 1.0 / rate;
        return Go(Some(Ticket(now, next)));
      }
      return Sleep(delay);
    }

    method RecordRateLimit(now: real, hint: Option<real>)
      requires rate > 0.0
      modifies this
      ensures State() == Throttled(old(State()), now, hint)
      ensures retry >= old(retry) && next >= old(next) && next >= retry && rate >= 1.0 / 60.0
      ensures rate * 2.0 == old(rate) || (rate == 1.0 / 60.0 && rate * 2.0 > old(rate))
      ensures retry == old(retry)
           || retry == now + match hint case None => 1.0 / rate case Some(s) => if s <= 60.0 then s else 60.0
      ensures hint.Some? ==> retry >= now + if hint.value <= 60.0 then hint.value else 60.0
      ensures hint.None? ==> retry >= now + 1.0 / rate
      ensures (next == old(next) || next == retry) && limited == old(limited) + 1
    {
      limited := limited + 1;
      rate := Larger(1.0 / 60.0, rate * 0.5);
      var delay := 1.0 / rate;
      if hint.Some? {
        delay := if hint.value <= MAX_RETRY_AFTER_SECONDS then hint.value else MAX_RETRY_AFTER_SECONDS;
      }
      retry := Larger(retry, now + delay);
      next := Larger(next, retry);
    }

    method RecordSuccess(now: real, reservation: real)
      requires rate > 0.0
      modifies this
      ensures State() == Succeeded(old(State()), now, reservation)
      ensures retry == old(retry) && (old(rate) <= INITIAL_RATE ==> old(rate) <= rate <= INITIAL_RATE)
      ensures old(next) != reservation ==> next >= old(next)
      ensures now < retry ==> State() == old(State())
      ensures now >= retry ==>
        && rate == (if old(rate) <= 0.875 then old(rate) + 0.125 else 1.0)
        && (next == old(next) || next == now + 1.0 / rate)
        && (old(next) == reservation || old(next) < now + 1.0 / rate ==> next == now + 1.0 / rate)
    {
      if now < retry {
        return;
      }
      rate := if rate + INITIAL_RATE / 8.0 <= INITIAL_RATE then rate + INITIAL_RATE / 8.0 else INITIAL_RATE;
      var recovered := now + 1.0 / rate;
      next := if next == reservation then recovered else Larger(next, recovered);
    }
  }

  // -- over every run ---------------------------------------------------------------------

  /** The gate, the paced calls under way, and when each paced call was admitted. */
  datatype History = History(gate: Gate, inflight: set<Ticket>, admissions: seq<real>)

  datatype Event =
    | Attempt(now: real, essential: bool)
    | ThrottleAnswer(now: real, hint: Option<real>, ticket: Option<Ticket>)
    | Success(now: real, call: Ticket)
    | Failure(call: Ticket)
    | Replaced

  /** Completions are of calls under way, read on a clock that does not run backwards. */
  ghost predicate Possible(h: History, e: Event) {
    match e
    case Attempt(_, _) => true
    case ThrottleAnswer(now, _, ticket) => ticket.Some? ==> ticket.value in h.inflight
    case Success(now, ticket) => ticket in h.inflight && now >= ticket.admitted
    case Failure(ticket) => ticket in h.inflight
    case Replaced => true
  }

  ghost function Happen(h: History, e: Event): History
    requires h.gate.rate > 0.0
  {
    match e
    case Attempt(now, essential) =>
      var r := Admit(h.gate, now, essential);
      if r.1.Go? && r.1.ticket.Some? then History(r.0, h.inflight + {r.1.ticket.value}, h.admissions + [now])
      else h.(gate := r.0)
    case ThrottleAnswer(now, hint, ticket) =>
      h.(gate := Throttled(h.gate, now, hint),
         inflight := if ticket.Some? then h.inflight - {ticket.value} else h.inflight)
    case Success(now, ticket) =>
      h.(gate := Succeeded(h.gate, now, ticket.reservation), inflight := h.inflight - {ticket})
    case Failure(ticket) => h.(inflight := h.inflight - {ticket})
    case Replaced => h.(inflight := {})
  }

  ghost predicate TicketFits(h: History, t: Ticket) {
    && h.admissions != []
    && t.reservation <= h.gate.next && t.admitted <= h.admissions[|h.admissions| - 1]
    && (t.admitted < h.admissions[|h.admissions| - 1] ==> t.reservation <= h.admissions[|h.admissions| - 1])
  }

  ghost predicate Spaced(admissions: seq<real>) {
    forall i | 0 < i < |admissions| :: admissions[i] >= admissions[i - 1] + 1.0
  }

  /** What every event keeps. */
  ghost predicate Kept(h: History) {
    && 1.0 / 60.0 <= h.gate.rate <= INITIAL_RATE
    && h.gate.next >= h.gate.retry
    && (h.admissions != [] ==> h.gate.next >= h.admissions[|h.admissions| - 1] + 1.0)
    && Spaced(h.admissions)
    && (forall t | t in h.inflight :: TicketFits(h, t))
    && (forall t, u | t in h.inflight && u in h.inflight && t.admitted == u.admitted :: t == u)
  }

  lemma AtLeastOne(g: real, rate: real)
    requires 0.0 < rate <= 1.0 && g * rate == 1.0
    ensures g >= 1.0
  {
  }

  lemma Gap(rate: real)
    requires 1.0 / 60.0 <= rate <= 1.0
    ensures 1.0 <= 1.0 / rate <= 60.0
  {
    var g := 1.0 / rate;
    assert g * rate == 1.0;
    AtLeastOne(g, rate);
  }

  lemma AttemptKeeps(h: History, now: real, essential: bool)
    requires Kept(h)
    ensures Kept(Happen(h, Attempt(now, essential)))
  {
    Gap(h.gate.rate);
    var after := Happen(h, Attempt(now, essential));
    forall t | t in after.inflight ensures TicketFits(after, t) {
      if t in h.inflight {
        assert TicketFits(h, t);
      }
    }
  }

  lemma ThrottleKeeps(h: History, now: real, hint: Option<real>, ticket: Option<Ticket>)
    requires Kept(h)
    ensures Kept(Happen(h, ThrottleAnswer(now, hint, ticket)))
  {
    var after := Happen(h, ThrottleAnswer(now, hint, ticket));
    forall t | t in after.inflight ensures TicketFits(after, t) {
      assert TicketFits(h, t);
    }
  }

  lemma SuccessKeeps(h: History, now: real, ticket: Ticket)
    requires Kept(h) && Possible(h, Success(now, ticket))
    ensures Kept(Happen(h, Success(now, ticket)))
  {
    var after := Happen(h, Success(now, ticket));
    Gap(after.gate.rate);
    assert TicketFits(h, ticket);
    forall t | t in after.inflight ensures TicketFits(after, t) {
      assert TicketFits(h, t);
    }
  }

  lemma EventKeeps(h: History, e: Event)
    requires Kept(h) && Possible(h, e)
    ensures Kept(Happen(h, e))
  {
    match e
    case Attempt(now, essential) => AttemptKeeps(h, now, essential);
    case ThrottleAnswer(now, hint, ticket) => ThrottleKeeps(h, now, hint, ticket);
    case Success(now, ticket) => SuccessKeeps(h, now, ticket);
    case Failure(ticket) =>
      forall t | t in Happen(h, e).inflight ensures TicketFits(Happen(h, e), t) {
        assert TicketFits(h, t);
      }
    case Replaced =>
  }

  /** The history after a run of events, each of them possible when it happens. */
  ghost function After(events: seq<Event>): Option<History>
    ensures After(events).Some? ==> Kept(After(events).value)
    decreases |events|
  {
    if events == [] then Some(History(Gate(INITIAL_RATE, 0.0, 0.0, 0, 0), {}, [])) else
      var before := After(events[..|events| - 1]);
      var e := events[|events| - 1];
      if before.Some? && Possible(before.value, e) then
        EventKeeps(before.value, e);
        Some(Happen(before.value, e))
      else None
  }

  lemma {:induction false} SpacedApart(admissions: seq<real>, i: nat, j: nat)
    requires Spaced(admissions) && i < j < |admissions|
    ensures admissions[j] >= admissions[i] + (j - i) as real
    decreases j
  {
    if i < j - 1 {
      SpacedApart(admissions, i, j - 1);
    }
  }

  /** Over every run of the gate and its replacements, the rate stays between a sixtieth and one, the next-request
      time never falls below the retry time, and paced calls are admitted at least a second apart. */
  lemma GateAlwaysPaces(events: seq<Event>, i: nat, j: nat)
    requires After(events).Some? && i < j < |After(events).value.admissions|
    ensures var h := After(events).value;
      && 1.0 / 60.0 <= h.gate.rate <= INITIAL_RATE && h.gate.next >= h.gate.retry
      && h.admissions[j] - h.admissions[i] >= (j - i) as real
  {
    SpacedApart(After(events).value.admissions, i, j);
  }

  /** No event moves the retry time back, no call starts before it, and no throttle defers by more than a minute. */
  lemma RetryIsHonoured(h: History, e: Event)
    requires Kept(h) && Possible(h, e)
    ensures Happen(h, e).gate.retry >= h.gate.retry
    ensures e.Attempt? && Admit(h.gate, e.now, e.essential).1.Go? ==> e.now >= h.gate.retry
    ensures e.Attempt? && !e.essential && Admit(h.gate, e.now, e.essential).1.Go? ==> e.now >= h.gate.next
    ensures e.ThrottleAnswer? ==> Happen(h, e).gate.retry <= Larger(h.gate.retry, e.now + MAX_RETRY_AFTER_SECONDS)
  {
    Gap(HalvedRate(h.gate.rate));
  }

  // -- backing off and recovering --------------------------------------------------------

  /** The gate after throttle answers, each with its clock reading and hint. */
  ghost function ThrottledBy(g: Gate, answers: seq<(real, Option<real>)>): (r: Gate)
    requires g.rate >= 1.0 / 60.0
    ensures r.rate >= 1.0 / 60.0
    decreases |answers|
  {
    if answers == [] then g else
      var last := answers[|answers| - 1];
      Throttled(ThrottledBy(g, answers[..|answers| - 1]), last.0, last.1)
  }

  ghost function Halved(rate: real, times: nat): real {
    if times == 0 then rate else Halved(rate, times - 1) / 2.0
  }

  /** So many throttle answers halve the rate so many times, to no less than one call a minute. */
  lemma {:induction false} ThrottlesHalve(g: Gate, answers: seq<(real, Option<real>)>)
    requires g.rate >= 1.0 / 60.0
    ensures var halved := Halved(g.rate, |answers|);
      ThrottledBy(g, answers).rate == if halved >= 1.0 / 60.0 then halved else 1.0 / 60.0
    decreases |answers|
  {
    if answers != [] {
      ThrottlesHalve(g, answers[..|answers| - 1]);
    }
  }

  /** The gate after paced calls succeeded, each with its clock reading and reservation. */
  ghost function SucceededBy(g: Gate, calls: seq<(real, real)>): (r: Gate)
    requires g.rate > 0.0
    ensures r.rate > 0.0 && r.retry == g.retry
    decreases |calls|
  {
    if calls == [] then g else
      var last := calls[|calls| - 1];
      Succeeded(SucceededBy(g, calls[..|calls| - 1]), last.0, last.1)
  }

  /** Successes past the retry time win back an eighth of the full rate each: eight recover from any backing off. */
  lemma {:induction false} SuccessesRecover(g: Gate, calls: seq<(real, real)>)
    requires 0.0 < g.rate <= 1.0 && forall k | 0 <= k < |calls| :: calls[k].0 >= g.retry
    ensures var won := g.rate + |calls| as real / 8.0;
      SucceededBy(g, calls).rate == if won <= 1.0 then won else 1.0
    decreases |calls|
  {
    if calls != [] {
      SuccessesRecover(g, calls[..|calls| - 1]);
      assert SucceededBy(g, calls[..|calls| - 1]).retry == g.retry;
    }
  }
}
