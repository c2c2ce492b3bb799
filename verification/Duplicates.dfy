/** Which hotkeys share a payout: identical forecasts in one round, and the pools they form over the window. */
module Duplicates {
  import opened Wrappers
  import opened Sorting
  import opened WeightProcessing

  type Hotkey = string
  type Forecast = map<string, int>
  type Place = (nat, nat)

  // -- one round's identical groups --------------------------------------

  /** Both hotkeys submitted, and submitted the same non-empty values. */
  predicate SameForecast(accepted: map<Hotkey, Forecast>, a: Hotkey, b: Hotkey) {
    a in accepted && b in accepted && accepted[a] == accepted[b] && accepted[a] != map[]
  }

  /** Exactly the classes of two or more hotkeys that forecast the same. */
  ghost predicate IsGrouping(accepted: map<Hotkey, Forecast>, groups: seq<set<Hotkey>>) {
    && (forall i | 0 <= i < |groups| :: |groups[i]| > 1)
    && (forall i, j | 0 <= i < j < |groups| :: groups[i] !! groups[j])
    && (forall i, a, b | 0 <= i < |groups| && a in groups[i] :: b in groups[i] <==> SameForecast(accepted, a, b))
    && (forall a, b | SameForecast(accepted, a, b) && a != b :: exists i :: 0 <= i < |groups| && a in groups[i])
  }

  ghost predicate GroupsSoFar(accepted: map<Hotkey, Forecast>, seen: seq<Hotkey>, keys: seq<Forecast>,
                              groups: seq<set<Hotkey>>)
  {
    && |keys| == |groups| && Distinct(keys) && map[] !in keys
    && (forall h | h in seen :: h in accepted && (accepted[h] == map[] || accepted[h] in keys))
    && (forall i | 0 <= i < |keys| :: groups[i] != {})
    && (forall i, h | 0 <= i < |keys| :: h in groups[i] <==> h in seen && accepted[h] == keys[i])
  }

  method IdenticalForecastGroups(accepted: map<Hotkey, Forecast>, order: seq<Hotkey>) returns (r: seq<set<Hotkey>>)
    requires (set k | k in order) == accepted.Keys
    ensures IsGrouping(accepted, r)
  {
    var keys: seq<Forecast>, groups: seq<set<Hotkey>> := [], [];
    for n := 0 to |order|
      invariant GroupsSoFar(accepted, order[..n], keys, groups)
    {
      var hotkey := order[n];
      assert hotkey in (set k | k in order);
      var values := accepted[hotkey];
      ghost var before, had := keys, groups;
      if values != map[] {
        if values !in keys {
          keys, groups := keys + [values], groups + [{}];
        }
        var i := IndexOf(keys, values);
        groups := groups[i := groups[i] + {hotkey}];
      }
      NextGroups(accepted, order[..n], hotkey, before, had, keys, groups);
      assert order[..n + 1] == order[..n] + [hotkey];
    }
    assert order[..|order|] == order;
    r := KeepShared(groups);
    SharedIsGrouping(accepted, order, keys, groups, r);
  }

  lemma NextGroups(accepted: map<Hotkey, Forecast>, seen: seq<Hotkey>, hotkey: Hotkey, before: seq<Forecast>,
                   had: seq<set<Hotkey>>, keys: seq<Forecast>, groups: seq<set<Hotkey>>)
    requires GroupsSoFar(accepted, seen, before, had) && hotkey in accepted
    requires accepted[hotkey] == map[] ==> keys == before && groups == had
    requires accepted[hotkey] != map[] ==>
      var padded := if accepted[hotkey] in before then had else had + [{}];
      && keys == (if accepted[hotkey] in before then before else before + [accepted[hotkey]])
      && groups == padded[IndexOf(keys, accepted[hotkey]) := padded[IndexOf(keys, accepted[hotkey])] + {hotkey}]
    ensures GroupsSoFar(accepted, seen + [hotkey], keys, groups)
  {
    var values := accepted[hotkey];
    if values == map[] {
      NoGroup(accepted, seen, hotkey, keys, groups);
    } else if values in before {
      JoinGroup(accepted, seen, hotkey, before, had, IndexOf(keys, values), groups);
    } else {
      OpenGroup(accepted, seen, hotkey, before, had);
      LastPadded(before, had, values, hotkey);
    }
  }

  lemma NoGroup(accepted: map<Hotkey, Forecast>, seen: seq<Hotkey>, hotkey: Hotkey, keys: seq<Forecast>,
                groups: seq<set<Hotkey>>)
    requires GroupsSoFar(accepted, seen, keys, groups) && hotkey in accepted && accepted[hotkey] == map[]
    ensures GroupsSoFar(accepted, seen + [hotkey], keys, groups)
  {
  }

  lemma LastPadded(before: seq<Forecast>, had: seq<set<Hotkey>>, values: Forecast, hotkey: Hotkey)
    requires |had| == |before| && values !in before
    ensures IndexOf(before + [values], values) == |before|
    ensures (had + [{}])[|before| := (had + [{}])[|before|] + {hotkey}] == had + [{hotkey}]
  {
    assert (had + [{}])[|before|] == {} && {} + {hotkey} == {hotkey};
  }

  lemma JoinGroup(accepted: map<Hotkey, Forecast>, seen: seq<Hotkey>, hotkey: Hotkey, keys: seq<Forecast>,
                  had: seq<set<Hotkey>>, i: nat, groups: seq<set<Hotkey>>)
    requires GroupsSoFar(accepted, seen, keys, had) && hotkey in accepted
    requires i < |keys| && keys[i] == accepted[hotkey] && groups == had[i := had[i] + {hotkey}]
    ensures GroupsSoFar(accepted, seen + [hotkey], keys, groups)
  {
    forall j, h | 0 <= j < |keys| ensures h in groups[j] <==> h in seen + [hotkey] && accepted[h] == keys[j] {
      assert j != i ==> keys[j] != keys[i];
    }
  }

  lemma OpenGroup(accepted: map<Hotkey, Forecast>, seen: seq<Hotkey>, hotkey: Hotkey, before: seq<Forecast>,
                  had: seq<set<Hotkey>>)
    requires GroupsSoFar(accepted, seen, before, had) && hotkey in accepted
    requires accepted[hotkey] != map[] && accepted[hotkey] !in before
    ensures GroupsSoFar(accepted, seen + [hotkey], before + [accepted[hotkey]], had + [{hotkey}])
  {
  }

  method KeepShared(groups: seq<set<Hotkey>>) returns (r: seq<set<Hotkey>>)
    ensures r == Shared(groups)
  {
    r := [];
    for n := 0 to |groups|
      invariant r == Shared(groups[..n])
    {
      assert groups[..n + 1][..n] == groups[..n];
      if |groups[n]| > 1 {
        r := r + [groups[n]];
      }
    }
    assert groups[..|groups|] == groups;
  }

  function Shared(groups: seq<set<Hotkey>>): (r: seq<set<Hotkey>>)
    ensures forall g :: g in r <==> g in groups && |g| > 1
  {
    if groups == [] then [] else
      var n := |groups| - 1;
      assert groups == groups[..n] + [groups[n]];
      Shared(groups[..n]) + (if |groups[n]| > 1 then [groups[n]] else [])
  }

  lemma {:induction false} SharedDisjoint(groups: seq<set<Hotkey>>)
    requires forall i, j | 0 <= i < j < |groups| :: groups[i] !! groups[j]
    ensures forall i, j | 0 <= i < j < |Shared(groups)| :: Shared(groups)[i] !! Shared(groups)[j]
  {
    if groups != [] {
      var n := |groups| - 1;
      SharedDisjoint(groups[..n]);
      forall i | 0 <= i < |Shared(groups[..n])| ensures Shared(groups[..n])[i] !! groups[n] {
        assert Shared(groups[..n])[i] in groups[..n];
        var k :| 0 <= k < n && groups[k] == Shared(groups[..n])[i];
        assert groups[k] !! groups[n];
      }
    }
  }

  lemma TwoMembers(s: set<Hotkey>, a: Hotkey, b: Hotkey)
    requires a in s && b in s && a != b
    ensures |s| > 1
  {
    assert |s - {a}| == |s| - 1;
    assert b in s - {a};
  }

  lemma AnotherMember(s: set<Hotkey>, a: Hotkey)
    requires |s| > 1
    ensures exists b :: b in s && b != a
  {
    var others := s - {a};
    assert |others| >= |s| - 1;
    var b :| b in others;
  }

  lemma GroupsApart(accepted: map<Hotkey, Forecast>, order: seq<Hotkey>, keys: seq<Forecast>, groups: seq<set<Hotkey>>)
    requires GroupsSoFar(accepted, order, keys, groups)
    ensures forall i, j | 0 <= i < j < |groups| :: groups[i] !! groups[j]
  {
    forall i, j | 0 <= i < j < |groups| ensures groups[i] !! groups[j] {
      assert keys[i] != keys[j];
      assert forall h | h in groups[i] :: accepted[h] == keys[i];
      assert forall h | h in groups[j] :: accepted[h] == keys[j];
    }
  }

  lemma SharedIsGrouping(accepted: map<Hotkey, Forecast>, order: seq<Hotkey>, keys: seq<Forecast>,
                         groups: seq<set<Hotkey>>,
                         r: seq<set<Hotkey>>)
    requires GroupsSoFar(accepted, order, keys, groups) && (set k | k in order) == accepted.Keys && r == Shared(groups)
    ensures IsGrouping(accepted, r)
  {
    GroupsApart(accepted, order, keys, groups);
    SharedDisjoint(groups);
    forall h ensures h in order <==> h in accepted {
      assert h in order <==> h in (set k | k in order);
    }
    forall i, a, b | 0 <= i < |r| && a in r[i] ensures b in r[i] <==> SameForecast(accepted, a, b) {
      SharedMember(accepted, order, keys, groups, r[i], a, b);
    }
    forall a, b | SameForecast(accepted, a, b) && a != b ensures exists i :: 0 <= i < |r| && a in r[i] {
      SharedAppears(accepted, order, keys, groups, a, b);
    }
  }

  lemma SharedMember(accepted: map<Hotkey, Forecast>, order: seq<Hotkey>, keys: seq<Forecast>, groups: seq<set<Hotkey>>,
                     group: set<Hotkey>, a: Hotkey, b: Hotkey)
    requires GroupsSoFar(accepted, order, keys, groups) && (forall h :: h in order <==> h in accepted)
    requires group in groups && a in group
    ensures b in group <==> SameForecast(accepted, a, b)
  {
    var k :| 0 <= k < |groups| && groups[k] == group;
    assert accepted[a] == keys[k] && keys[k] in keys;
  }

  lemma SharedAppears(accepted: map<Hotkey, Forecast>, order: seq<Hotkey>, keys: seq<Forecast>,
                      groups: seq<set<Hotkey>>,
                      a: Hotkey, b: Hotkey)
    requires GroupsSoFar(accepted, order, keys, groups) && (forall h :: h in order <==> h in accepted)
    requires SameForecast(accepted, a, b) && a != b
    ensures exists i :: 0 <= i < |Shared(groups)| && a in Shared(groups)[i]
  {
    var k := IndexOf(keys, accepted[a]);
    assert a in groups[k] && b in groups[k];
    TwoMembers(groups[k], a, b);
    assert groups[k] in Shared(groups);
  }

  // -- the pools over a window -------------------------------------------

  /** A group's members that count. */
  function Counted(group: set<Hotkey>, scored: Option<set<Hotkey>>): set<Hotkey> {
    if scored.None? then group else group * scored.value
  }

  /** Python's setdefault for each member. */
  function Default(placed: map<Hotkey, Place>, members: set<Hotkey>, place: Place): map<Hotkey, Place> {
    (map h | h in members :: place) + placed
  }

  function AssignGroups(placed: map<Hotkey, Place>, age: nat, groups: seq<set<Hotkey>>, scored: Option<set<Hotkey>>)
    : map<Hotkey, Place>
  {
    if groups == [] then placed else
      var n := |groups| - 1;
      var members := Counted(groups[n], scored);
      var before := AssignGroups(placed, age, groups[..n], scored);
      if |members| > 1 then Default(before, members, (age, n)) else before
  }

  /** The assignment after every round of age `from` or more, oldest first. */
  function AssignFrom(rounds: seq<seq<set<Hotkey>>>, scored: Option<set<Hotkey>>, from: nat): map<Hotkey, Place>
    requires from <= |rounds|
    decreases |rounds| - from
  {
    if from == |rounds| then map[] else AssignGroups(AssignFrom(rounds, scored, from + 1), from, rounds[from], scored)
  }

  function Assignment(rounds: seq<seq<set<Hotkey>>>, scored: Option<set<Hotkey>>): map<Hotkey, Place> {
    AssignFrom(rounds, scored, 0)
  }

  ghost function PoolAt(placed: map<Hotkey, Place>, place: Place): set<Hotkey> {
    set h | h in placed && placed[h] == place
  }

  /** The pools as sets; the source lists them in a canonical order. */
  ghost function Pools(rounds: seq<seq<set<Hotkey>>>, scored: Option<set<Hotkey>>): set<set<Hotkey>> {
    var m := Assignment(rounds, scored);
    set h | h in m && |PoolAt(m, m[h])| > 1 :: PoolAt(m, m[h])
  }

  method DefaultEach(placed: map<Hotkey, Place>, members: set<Hotkey>, place: Place) returns (r: map<Hotkey, Place>)
    ensures r == Default(placed, members, place)
  {
    r := placed;
    var rest := members;
    while rest != {}
      invariant rest <= members && r == Default(placed, members - rest, place)
      decreases rest
    {
      var hotkey :| hotkey in rest;
      if hotkey !in r {
        r := r[hotkey := place];
      }
      rest := rest - {hotkey};
    }
    assert members - rest == members;
  }

  method PoolMembers(placed: map<Hotkey, Place>) returns (pools: map<Place, set<Hotkey>>)
    ensures pools.Keys == placed.Values
    ensures forall place | place in pools :: pools[place] == PoolAt(placed, place)
  {
    pools := map[];
    var rest := placed.Keys;
    while rest != {}
      invariant rest <= placed.Keys
      invariant forall place :: place in pools <==> exists h :: h in placed.Keys - rest && placed[h] == place
      invariant forall place | place in pools :: pools[place] == PoolAt(placed, place) - rest
      decreases rest
    {
      var hotkey :| hotkey in rest;
      var place := placed[hotkey];
      var had := if place in pools then pools[place] else {};
      assert PoolAt(placed, place) - (rest - {hotkey}) == had + {hotkey};
      pools := pools[place := had + {hotkey}];
      ghost var done := placed.Keys - (rest - {hotkey});
      assert hotkey in done;
      assert forall h | h in placed.Keys - rest :: h in done;
      rest := rest - {hotkey};
    }
    forall place ensures place in pools <==> place in placed.Values {
      if place in placed.Values {
        var h :| h in placed && placed[h] == place;
        assert h in placed.Keys - rest;
      }
    }
  }

  lemma OneMoreGroup(older: map<Hotkey, Place>, age: nat, groups: seq<set<Hotkey>>, scored: Option<set<Hotkey>>,
                     index: nat)
    requires index < |groups|
    ensures var before, members := AssignGroups(older, age, groups[..index], scored), Counted(groups[index], scored);
      AssignGroups(older, age, groups[..index + 1], scored) ==
        if |members| > 1 then Default(before, members, (age, index)) else before
  {
    assert groups[..index + 1][..index] == groups[..index];
  }

  method DuplicatePools(rounds: seq<seq<set<Hotkey>>>, scored: Option<set<Hotkey>>) returns (r: set<set<Hotkey>>)
    ensures r == Pools(rounds, scored)
  {
    var placed: map<Hotkey, Place> := map[];
    for age := |rounds| downto 0
      invariant placed == AssignFrom(rounds, scored, age)
    {
      var groups := rounds[age];
      ghost var older := placed;
      for index := 0 to |groups|
        invariant placed == AssignGroups(older, age, groups[..index], scored)
      {
        var members := Counted(groups[index], scored);
        OneMoreGroup(older, age, groups, scored, index);
        if |members| > 1 {
          placed := DefaultEach(placed, members, (age, index));
        }
      }
      assert groups[..|groups|] == groups;
    }
    var pools := PoolMembers(placed);
    r := set place | place in pools && |pools[place]| > 1 :: pools[place];
    LargePools(placed, pools, r);
  }

  lemma LargePools(placed: map<Hotkey, Place>, pools: map<Place, set<Hotkey>>, r: set<set<Hotkey>>)
    requires pools.Keys == placed.Values && forall place | place in pools :: pools[place] == PoolAt(placed, place)
    requires r == set place | place in pools && |pools[place]| > 1 :: pools[place]
    ensures r == set h | h in placed && |PoolAt(placed, placed[h])| > 1 :: PoolAt(placed, placed[h])
  {
    var want := set h | h in placed && |PoolAt(placed, placed[h])| > 1 :: PoolAt(placed, placed[h]);
    forall p | p in r ensures p in want {
      var place :| place in pools && |pools[place]| > 1 && p == pools[place];
      var h :| h in placed && placed[h] == place;
    }
    forall p | p in want ensures p in r {
      var h :| h in placed && |PoolAt(placed, placed[h])| > 1 && p == PoolAt(placed, placed[h]);
      assert placed[h] in pools;
    }
  }

  // -- what the assignment means -----------------------------------------

  /** `h` counts in this group, and the group still holds two or more that count. */
  ghost predicate CountsIn(groups: seq<set<Hotkey>>, scored: Option<set<Hotkey>>, h: Hotkey, index: nat) {
    index < |groups| && h in Counted(groups[index], scored) && |Counted(groups[index], scored)| > 1
  }

  ghost predicate Qualifies(rounds: seq<seq<set<Hotkey>>>, scored: Option<set<Hotkey>>, h: Hotkey, age: nat, index: nat)
  {
    age < |rounds| && CountsIn(rounds[age], scored, h, index)
  }

  /** One hotkey is in at most one of a round's groups, as `IdenticalForecastGroups` promises. */
  ghost predicate DisjointRounds(rounds: seq<seq<set<Hotkey>>>) {
    forall age, i, j | 0 <= age < |rounds| && 0 <= i < j < |rounds[age]| :: rounds[age][i] !! rounds[age][j]
  }

  lemma {:induction false} AssignGroupsAt(placed: map<Hotkey, Place>, age: nat, groups: seq<set<Hotkey>>,
                                          scored: Option<set<Hotkey>>, h: Hotkey)
    ensures var m := AssignGroups(placed, age, groups, scored);
      && (h in placed ==> h in m && m[h] == placed[h])
      && (h !in placed ==> (h in m <==> exists i: nat :: CountsIn(groups, scored, h, i)))
      && (h !in placed && h in m ==> m[h].0 == age && CountsIn(groups, scored, h, m[h].1))
  {
    if groups != [] {
      var n := |groups| - 1;
      var front := groups[..n];
      AssignGroupsAt(placed, age, front, scored, h);
      forall i: nat
        ensures CountsIn(groups, scored, h, i) <==>
          CountsIn(front, scored, h, i) || (i == n && CountsIn(groups, scored, h, n))
      {
        assert i < n ==> front[i] == groups[i];
      }
      var m := AssignGroups(placed, age, groups, scored);
      var before := AssignGroups(placed, age, front, scored);
      if h in m && h !in placed {
        if h in before {
          assert CountsIn(front, scored, h, m[h].1);
        } else {
          assert CountsIn(groups, scored, h, n);
        }
      }
    }
  }

  lemma {:induction false} AssignedOldest(rounds: seq<seq<set<Hotkey>>>, scored: Option<set<Hotkey>>, from: nat,
                                          h: Hotkey)
    requires from <= |rounds|
    ensures var m := AssignFrom(rounds, scored, from);
      && (h in m ==> m[h].0 >= from && Qualifies(rounds, scored, h, m[h].0, m[h].1))
      && (forall age: nat, i: nat | age >= from && Qualifies(rounds, scored, h, age, i) :: h in m && age <= m[h].0)
    decreases |rounds| - from
  {
    if from < |rounds| {
      AssignedOldest(rounds, scored, from + 1, h);
      AssignGroupsAt(AssignFrom(rounds, scored, from + 1), from, rounds[from], scored, h);
      assert forall i: nat :: Qualifies(rounds, scored, h, from, i) <==> CountsIn(rounds[from], scored, h, i);
    }
  }

  /** A hotkey is assigned if and only if some group in the window counts it, and then to its oldest such group. */
  lemma OldestGroupDecides(rounds: seq<seq<set<Hotkey>>>, scored: Option<set<Hotkey>>, h: Hotkey, age: nat, i: nat)
    requires DisjointRounds(rounds)
    ensures var m := Assignment(rounds, scored);
      (h in m && m[h] == (age, i)) <==>
      (Qualifies(rounds, scored, h, age, i) && forall a: nat, j: nat | Qualifies(rounds, scored, h, a, j) :: a <= age)
  {
    AssignedOldest(rounds, scored, 0, h);
    var m := Assignment(rounds, scored);
    if h in m {
      assert Qualifies(rounds, scored, h, m[h].0, m[h].1);
    }
  }

  ghost predicate WithinGroup(rounds: seq<seq<set<Hotkey>>>, scored: Option<set<Hotkey>>, p: set<Hotkey>, age: nat,
                              i: nat)
  {
    age < |rounds| && i < |rounds[age]| && p <= Counted(rounds[age][i], scored)
  }

  /** Each pool holds two or more counted hotkeys of one round's group, and pools never overlap. */
  lemma PoolsAreDisjointGroups(rounds: seq<seq<set<Hotkey>>>, scored: Option<set<Hotkey>>)
    ensures forall p | p in Pools(rounds, scored) ::
      |p| > 1 && exists age: nat, i: nat :: WithinGroup(rounds, scored, p, age, i)
    ensures forall p, q, h | p in Pools(rounds, scored) && q in Pools(rounds, scored) && h in p && h in q :: p == q
  {
    var m := Assignment(rounds, scored);
    forall p | p in Pools(rounds, scored)
      ensures exists age: nat, i: nat :: WithinGroup(rounds, scored, p, age, i)
    {
      var h :| h in m && p == PoolAt(m, m[h]);
      AssignedOldest(rounds, scored, 0, h);
      forall x | x in p ensures Qualifies(rounds, scored, x, m[h].0, m[h].1) {
        AssignedOldest(rounds, scored, 0, x);
      }
      assert WithinGroup(rounds, scored, p, m[h].0, m[h].1);
    }
  }

  /** Newer rounds arrive and the oldest leave; the scored hotkeys stay the same. */
  ghost function Slide(rounds: seq<seq<set<Hotkey>>>, newer: seq<seq<set<Hotkey>>>, kept: nat): seq<seq<set<Hotkey>>>
    requires kept <= |rounds|
  {
    newer + rounds[..kept]
  }

  lemma SlideQualifies(rounds: seq<seq<set<Hotkey>>>, newer: seq<seq<set<Hotkey>>>, kept: nat,
                       scored: Option<set<Hotkey>>,
                       h: Hotkey, age: nat, i: nat)
    requires kept <= |rounds| && age < kept
    ensures Qualifies(Slide(rounds, newer, kept), scored, h, |newer| + age, i) <==> Qualifies(rounds, scored, h, age, i)
  {
    assert Slide(rounds, newer, kept)[|newer| + age] == rounds[age];
  }

  /** While an assignment's round stays in the window the assignment stays, however many newer rounds arrive. */
  lemma SurvivingAssignmentStays(rounds: seq<seq<set<Hotkey>>>, newer: seq<seq<set<Hotkey>>>, kept: nat,
                                 scored: Option<set<Hotkey>>, h: Hotkey, age: nat, i: nat)
    requires kept <= |rounds| && DisjointRounds(rounds) && DisjointRounds(newer) && age < kept
    requires h in Assignment(rounds, scored) && Assignment(rounds, scored)[h] == (age, i)
    ensures var m := Assignment(Slide(rounds, newer, kept), scored);
      h in m && m[h] == (|newer| + age, i)
  {
    var later := Slide(rounds, newer, kept);
    OldestGroupDecides(rounds, scored, h, age, i);
    SlideQualifies(rounds, newer, kept, scored, h, age, i);
    forall a: nat, j: nat | Qualifies(later, scored, h, a, j) ensures a <= |newer| + age {
      if a >= |newer| {
        SlideQualifies(rounds, newer, kept, scored, h, a - |newer|, j);
        assert Qualifies(rounds, scored, h, a - |newer|, j);
      }
    }
    OldestGroupDecides(later, scored, h, |newer| + age, i);
  }

  /** So a pool anchored in a surviving round never loses a member. */
  lemma SurvivingPoolKeepsMembers(rounds: seq<seq<set<Hotkey>>>, newer: seq<seq<set<Hotkey>>>, kept: nat,
                                  scored: Option<set<Hotkey>>, p: set<Hotkey>, h: Hotkey)
    requires kept <= |rounds| && DisjointRounds(rounds) && DisjointRounds(newer)
    requires p in Pools(rounds, scored) && h in p && Assignment(rounds, scored)[h].0 < kept
    ensures exists q :: q in Pools(Slide(rounds, newer, kept), scored) && p <= q
  {
    var m, n := Assignment(rounds, scored), Assignment(Slide(rounds, newer, kept), scored);
    var place := m[h];
    forall x | x in p ensures x in n && n[x] == (|newer| + place.0, place.1) {
      SurvivingAssignmentStays(rounds, newer, kept, scored, x, place.0, place.1);
    }
    var q := PoolAt(n, n[h]);
    assert p <= q;
    AnotherMember(p, h);
    var x :| x in p && x != h;
    TwoMembers(q, h, x);
  }

  // -- the order that breaks ties ----------------------------------------

  /** The keyed hash of a seed and a hotkey, as an injective number. */
  ghost predicate Injective(digest: Hotkey -> nat) {
    forall a, b :: digest(a) == digest(b) ==> a == b
  }

  function ByDigest(digest: Hotkey -> nat): (Hotkey, Hotkey) -> bool {
    (a, b) => digest(a) <= digest(b)
  }

  function TieOrdered(pools: seq<seq<Hotkey>>, digest: Hotkey -> nat): (r: seq<seq<Hotkey>>)
    ensures |r| == |pools| && forall i | 0 <= i < |r| :: multiset(r[i]) == multiset(pools[i])
  {
    seq(|pools|, i requires 0 <= i < |pools| => Sort(pools[i], ByDigest(digest)))
  }

  /** Two validators with the same seed draw the same order, by ascending digest, whatever order each read the pools'
      members in. */
  lemma TieOrderAgrees(a: seq<seq<Hotkey>>, b: seq<seq<Hotkey>>, digest: Hotkey -> nat)
    requires Injective(digest) && |a| == |b| && forall i | 0 <= i < |a| :: multiset(a[i]) == multiset(b[i])
    ensures TieOrdered(a, digest) == TieOrdered(b, digest)
    ensures forall i | 0 <= i < |a| :: forall j, k | 0 <= j < k < |TieOrdered(a, digest)[i]| ::
      digest(TieOrdered(a, digest)[i][j]) <= digest(TieOrdered(a, digest)[i][k])
  {
    forall i | 0 <= i < |a|
      ensures TieOrdered(a, digest)[i] == TieOrdered(b, digest)[i]
      ensures forall j, k | 0 <= j < k < |TieOrdered(a, digest)[i]| ::
        digest(TieOrdered(a, digest)[i][j]) <= digest(TieOrdered(a, digest)[i][k])
    {
      SortSorted(a[i], ByDigest(digest));
      SortSorted(b[i], ByDigest(digest));
      SortedUnique(Sort(a[i], ByDigest(digest)), Sort(b[i], ByDigest(digest)), ByDigest(digest));
    }
  }

  /** Ordered for a vote, the pools are the disjoint groups that weighing and rounding rely on. */
  lemma VotePoolsAreDisjoint(rounds: seq<seq<set<Hotkey>>>, scored: Option<set<Hotkey>>, lists: seq<seq<Hotkey>>,
                             digest: Hotkey -> nat)
    requires forall i | 0 <= i < |lists| :: Distinct(lists[i]) && (set h | h in lists[i]) in Pools(rounds, scored)
    requires forall i, j | 0 <= i < j < |lists| :: (set h | h in lists[i]) != (set h | h in lists[j])
    ensures DisjointGroups(TieOrdered(lists, digest))
  {
    var r := TieOrdered(lists, digest);
    forall i | 0 <= i < |r| ensures Distinct(r[i]) {
      DistinctPermutation(lists[i], r[i]);
    }
    forall i, j, x | 0 <= i < j < |r| && x in r[i] ensures x !in r[j] {
      ListsApart(rounds, scored, lists[i], lists[j], r[i], r[j], x);
    }
  }

  lemma ListsApart(rounds: seq<seq<set<Hotkey>>>, scored: Option<set<Hotkey>>, a: seq<Hotkey>, b: seq<Hotkey>,
                   c: seq<Hotkey>, d: seq<Hotkey>, x: Hotkey)
    requires (set h | h in a) in Pools(rounds, scored) && (set h | h in b) in Pools(rounds, scored)
    requires (set h | h in a) != (set h | h in b) && multiset(a) == multiset(c) && multiset(b) == multiset(d)
    requires x in c
    ensures x !in d
  {
    PoolsAreDisjointGroups(rounds, scored);
    SameElements(a, c);
    SameElements(b, d);
    var p, q := set h | h in a, set h | h in b;
    assert x in p;
    assert x in d <==> x in q;
  }
}
