/** The storage class: each method is one transaction, and moves the ledger exactly as specified. */
module EmissionTransactions {
  import opened Wrappers
  import opened EmissionStore

  class Storage {
    var batches: map<nat, Batch>
    var next: nat

    ghost function Contents(): Ledger
      reads this
    {
      Ledger(batches, next)
    }

    ghost predicate Valid()
      reads this
    {
      Inv(Contents())
    }

    constructor ()
      ensures Valid() && Contents() == EMPTY
    {
      batches, next := map[], 0;
    }

    method RecordWeightEmission(a: NewEmission) returns (r: Result<nat, Error>)
      requires Valid()
      modifies this
      ensures Valid() && Contents() == Record(old(Contents()), a)
      ensures r == if RecordCheck(old(Contents()), a).Some? then Err(RecordCheck(old(Contents()), a).value)
                   else Ok(old(next))
    {
      RecordKeepsInv(Contents(), a);
      var failure := RecordCheck(Ledger(batches, next), a);
      if failure.Some? {
        return Err(failure.value);
      }
      var id := next;
      batches, next := batches[id := BatchOf(a)], id + 1;
      return Ok(id);
    }

    method TransitionWeightEmissionAttempt(id: nat, t: Outcome) returns (r: Result<(), Error>)
      requires Valid()
      modifies this`batches
      ensures Valid() && Contents() == Transition(old(Contents()), id, t)
      ensures var failure := TransitionCheck(old(Contents()), id, t);
        r == if failure.Some? then Err(failure.value) else Ok(())
    {
      TransitionKeepsInv(Contents(), id, t);
      var failure := TransitionCheck(Ledger(batches, next), id, t);
      if failure.Some? {
        return Err(failure.value);
      }
      batches := batches[id := Transitioned(batches[id], t)];
      return Ok(());
    }

    method ResolveWeightEmissionConfirmations(schema: string, s: Snapshot, margin: int, at: string)
      returns (r: Result<Resolution, Error>)
      requires Valid()
      modifies this`batches
      ensures Valid() && Contents() == Resolve(old(Contents()), schema, s, margin, at)
      ensures r == if ResolveCheck(s, margin).Some? then Err(ResolveCheck(s, margin).value)
                   else Ok(Resolution(|Became(old(batches), batches, Confirmed)|,
                                      |Became(old(batches), batches, Unconfirmed)|))
    {
      ghost var before := Contents();
      ResolveKeepsInv(before, schema, s, margin, at);
      if ResolveCheck(s, margin).Some? {
        return Err(ResolveCheck(s, margin).value);
      }
      var ids := set id | id in batches && Due(batches[id], schema);
      AllReady(before, schema, ids);
      var confirmed, unconfirmed := ResolveEach(ids, schema, s, margin, at);
      AllResolved(before, batches, ids, schema, s, margin, at);
      return Ok(Resolution(confirmed, unconfirmed));
    }

    /** The loop over the open batches. */
    method ResolveEach(ids: set<nat>, schema: string, s: Snapshot, margin: int, at: string)
      returns (confirmed: nat, unconfirmed: nat)
      requires ids <= batches.Keys && forall id | id in ids :: ReadyToResolve(batches[id], schema)
      modifies this`batches
      ensures batches.Keys == old(batches).Keys
      ensures forall id | id in batches :: batches[id] == AfterOne(old(batches)[id], id in ids, schema, s, margin, at)
      ensures confirmed == |Became(old(batches), batches, Confirmed)|
      ensures unconfirmed == |Became(old(batches), batches, Unconfirmed)|
    {
      ghost var was := batches;
      var rest := ids;
      confirmed, unconfirmed := 0, 0;
      NothingResolved(was, ids, schema, s, margin, at);
      while rest != {}
        invariant rest <= ids && SoFar(was, batches, rest, ids, schema, s, margin, at)
        invariant Counts(was, batches, confirmed, unconfirmed)
        decreases rest
      {
        var id :| id in rest;
        ghost var before := batches;
        var c, u := ResolveOneBatch(id, schema, s, margin, at);
        OneResolved(was, before, batches, rest, ids, id, schema, s, margin, at);
        OneCounted(was, before, batches, id, confirmed, unconfirmed);
        confirmed, unconfirmed := confirmed + c, unconfirmed + u;
        rest := rest - {id};
      }
    }

    method ResolveOneBatch(id: nat, schema: string, s: Snapshot, margin: int, at: string)
      returns (confirmed: nat, unconfirmed: nat)
      requires id in batches && ReadyToResolve(batches[id], schema)
      modifies this`batches
      ensures batches == old(batches)[id := AfterOne(old(batches)[id], true, schema, s, margin, at)]
      ensures Open(old(batches)[id].state)
      ensures confirmed == if batches[id].state == Confirmed then 1 else 0
      ensures unconfirmed == if batches[id].state == Unconfirmed then 1 else 0
    {
      var decision := Decide(batches[id], s, margin);
      batches := batches[id := Apply(batches[id], decision, at)];
      confirmed := if decision.Confirm? then 1 else 0;
      unconfirmed := if decision.Unconfirm? then 1 else 0;
    }

    method HasOpenWeightEmissionConfirmation(schema: string) returns (r: bool)
      ensures r == HasOpen(Contents(), schema)
      ensures forall a: NewEmission | a.schema == schema && Open(a.state) ::
        RecordCheck(Contents(), a).None? <==> !r && EmissionValid(a) && Constraints(BatchOf(a)) && DistinctUids(a.rows)
    {
      r := exists id | id in batches :: Open(batches[id].state) && batches[id].schema == schema;
    }

    method Cr4RevealScanWindow(schema: string, finalized: int) returns (r: Option<Window>)
      requires Valid()
      ensures r == ScanWindow(Contents(), schema, finalized)
    {
      if id :| id in batches && Scannable(batches[id], schema) {
        TheWindow(Contents(), schema, id, finalized);
        r := WindowOf(id, batches[id], finalized);
      } else {
        r := None;
      }
    }

    method AdvanceCr4RevealScanCursor(id: nat, through: int)
      requires Valid()
      modifies this`batches
      ensures Valid() && Contents() == Advance(old(Contents()), id, through)
    {
      AdvanceKeepsInv(Contents(), id, through);
      if id in batches && Open(batches[id].state) {
        batches := batches[id := batches[id].(cursor := Later(batches[id].cursor, Some(through)))];
      }
    }
  }

  predicate ReadyToResolve(b: Batch, schema: string) {
    Constraints(b) && Due(b, schema)
  }

  ghost function AfterOne(b: Batch, selected: bool, schema: string, s: Snapshot, margin: int, at: string): Batch {
    if selected && ReadyToResolve(b, schema) then ResolveOne(b, schema, s, margin, at) else b
  }

  lemma AllReady(l: Ledger, schema: string, ids: set<nat>)
    requires Inv(l) && forall id | id in ids :: id in l.batches && Due(l.batches[id], schema)
    ensures forall id | id in ids :: id in l.batches && ReadyToResolve(l.batches[id], schema)
  {
    forall id | id in ids ensures ReadyToResolve(l.batches[id], schema) {
      assert RowFits(l, id);
    }
  }

  lemma AllResolved(l: Ledger, now: map<nat, Batch>, ids: set<nat>, schema: string, s: Snapshot, margin: int,
                    at: string)
    requires Inv(l) && ResolveCheck(s, margin).None? && now.Keys == l.batches.Keys
    requires ids == set id | id in l.batches && Due(l.batches[id], schema)
    requires forall id | id in now :: now[id] == AfterOne(l.batches[id], id in ids, schema, s, margin, at)
    ensures l.(batches := now) == Resolve(l, schema, s, margin, at)
  {
    forall id | id in now ensures RowFits(l, id) && now[id] == ResolveOne(l.batches[id], schema, s, margin, at) {
      assert RowFits(l, id);
    }
  }

  ghost predicate Reached(a: State, b: State, state: State) {
    a != state && b == state
  }

  /** The batches that reached `state` between the two tables. */
  ghost function Became(was: map<nat, Batch>, now: map<nat, Batch>, state: State): set<nat> {
    set id | id in was && id in now && Reached(was[id].state, now[id].state, state)
  }

  /** The loop's table: as it was where still to do, resolved where done. */
  ghost predicate SoFar(was: map<nat, Batch>, now: map<nat, Batch>, rest: set<nat>, ids: set<nat>,
                        schema: string, s: Snapshot, margin: int, at: string) {
    && now.Keys == was.Keys
    && (forall id | id in was && id in rest :: now[id] == was[id])
    && (forall id | id in was && id !in rest :: now[id] == AfterOne(was[id], id in ids, schema, s, margin, at))
  }

  lemma NothingResolved(was: map<nat, Batch>, ids: set<nat>, schema: string, s: Snapshot, margin: int, at: string)
    ensures SoFar(was, was, ids, ids, schema, s, margin, at)
    ensures Counts(was, was, 0, 0)
  {
    assert Became(was, was, Confirmed) == {} && Became(was, was, Unconfirmed) == {};
  }

  ghost predicate Counts(was: map<nat, Batch>, now: map<nat, Batch>, confirmed: nat, unconfirmed: nat) {
    confirmed == |Became(was, now, Confirmed)| && unconfirmed == |Became(was, now, Unconfirmed)|
  }

  lemma OneResolved(was: map<nat, Batch>, before: map<nat, Batch>, now: map<nat, Batch>, rest: set<nat>, ids: set<nat>,
                    id: nat, schema: string, s: Snapshot, margin: int, at: string)
    requires SoFar(was, before, rest, ids, schema, s, margin, at) && id in rest && rest <= ids <= was.Keys
    requires now == before[id := AfterOne(before[id], true, schema, s, margin, at)] && Open(was[id].state)
    ensures SoFar(was, now, rest - {id}, ids, schema, s, margin, at)
  {
  }

  lemma BecameOne(was: map<nat, Batch>, before: map<nat, Batch>, now: map<nat, Batch>, id: nat, state: State)
    requires id in was && id in before && id in now && before[id] == was[id]
    requires now.Keys == before.Keys && forall i | i in before && i != id :: now[i] == before[i]
    ensures |Became(was, now, state)| ==
      |Became(was, before, state)| + if was[id].state != state && now[id].state == state then 1 else 0
  {
    var a, b := Became(was, before, state), Became(was, now, state);
    assert id !in a;
    forall i | i != id ensures i in a <==> i in b {
    }
    OneMoreMember(a, b, id);
  }

  lemma OneMoreMember(a: set<nat>, b: set<nat>, id: nat)
    requires id !in a && forall i | i != id :: i in a <==> i in b
    ensures |b| == |a| + if id in b then 1 else 0
  {
    assert b == if id in b then a + {id} else a;
  }

  lemma OneCounted(was: map<nat, Batch>, before: map<nat, Batch>, now: map<nat, Batch>, id: nat, confirmed: nat,
                   unconfirmed: nat)
    requires id in was && id in before && before[id] == was[id] && Open(was[id].state)
    requires id in now && now == before[id := now[id]] && Counts(was, before, confirmed, unconfirmed)
    ensures Counts(was, now, confirmed + if now[id].state == Confirmed then 1 else 0,
                   unconfirmed + if now[id].state == Unconfirmed then 1 else 0)
  {
    BecameOne(was, before, now, id, Confirmed);
    BecameOne(was, before, now, id, Unconfirmed);
  }

  ghost function Chosen(l: Ledger, schema: string): (id: nat)
    requires exists id :: id in l.batches && Scannable(l.batches[id], schema)
    ensures id in l.batches && Scannable(l.batches[id], schema)
  {
    var id :| id in l.batches && Scannable(l.batches[id], schema);
    id
  }

  /** The one batch the unique index lets a scan look at, if any. */
  ghost function ScanWindow(l: Ledger, schema: string, finalized: int): Option<Window>
    requires Inv(l)
  {
    if exists id :: id in l.batches && Scannable(l.batches[id], schema) then
      var id := Chosen(l, schema);
      assert RowFits(l, id);
      WindowOf(id, l.batches[id], finalized)
    else None
  }

  /** It is the window of any batch that can be scanned: there is only one. */
  lemma TheWindow(l: Ledger, schema: string, id: nat, finalized: int)
    requires Inv(l) && id in l.batches && Scannable(l.batches[id], schema)
    ensures RowFits(l, id) && ScanWindow(l, schema, finalized) == WindowOf(id, l.batches[id], finalized)
  {
    assert Clash(l, Chosen(l, schema), id);
  }
}
