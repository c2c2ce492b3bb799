/** The 16-bit encoding of a vote. Decimals are exact reals; the 28-digit rounding of the source is idealised away. */
module WeightProcessing {
  import opened Wrappers
  import opened Sums
  import opened Sorting

  const U16_MAX: nat := 65535
  const EPSILON := 0.0000001
  const MIN_NON_ZERO_WEIGHT := 0.00001

  /** UIDs and their 16-bit weights. */
  type Vote = (seq<int>, seq<int>)

  datatype WeightError =
    | LengthMismatch
    | NegativeWeight
    | NegativeUid
    | UidOutsideMetagraph
    | RepeatedUid
    | UidInTwoGroups

  // -- u16 encoding ------------------------------------------------------

  function RoundHalfUp(x: real): int {
    (x + 0.5).Floor
  }

  function Max(s: seq<real>): (m: real)
    requires s != []
    ensures m in s && forall i | 0 <= i < |s| :: s[i] <= m
  {
    if |s| == 1 then s[0] else
      var m := Max(s[1..]);
      assert forall i | 1 <= i < |s| :: s[i] == s[1..][i - 1];
      if s[0] >= m then s[0] else m
  }

  /** Every group lists distinct members and no two groups share one. */
  predicate DisjointGroups<T(==)>(groups: seq<seq<T>>) {
    && (forall g | 0 <= g < |groups| :: Distinct(groups[g]))
    && (forall g, h | 0 <= g < h < |groups| :: forall x | x in groups[g] :: x !in groups[h])
  }

  /** The positions in `uids` of a group's UIDs, in the group's order; absent UIDs are skipped. */
  function PositionsIn(uids: seq<int>, group: seq<int>): (r: seq<nat>)
    ensures forall k | k in r :: k < |uids| && uids[k] in group
  {
    if group == [] then []
    else if group[0] in uids then [IndexOf(uids, group[0])] + PositionsIn(uids, group[1..])
    else PositionsIn(uids, group[1..])
  }

  function GroupPositions(uids: seq<int>, groups: seq<seq<int>>): (r: seq<seq<nat>>)
    ensures |r| == |groups|
    ensures forall g | 0 <= g < |r| :: r[g] == PositionsIn(uids, groups[g])
  {
    seq(|groups|, g requires 0 <= g < |groups| => PositionsIn(uids, groups[g]))
  }

  function Remainder(scaled: seq<real>, k: nat): (r: real)
    ensures 0.0 <= r < 1.0
  {
    if k < |scaled| then scaled[k] - scaled[k].Floor as real else 0.0
  }

  function Remainders(scaled: seq<real>, members: seq<nat>): (r: seq<real>)
    ensures |r| == |members| && forall i | 0 <= i < |r| :: r[i] == Remainder(scaled, members[i])
  {
    seq(|members|, i requires 0 <= i < |members| => Remainder(scaled, members[i]))
  }

  predicate Ascending(a: real, b: real) {
    a <= b
  }

  /** The units a group's remainders add up to, rounded half up once. */
  function Spare(scaled: seq<real>, members: seq<nat>): int {
    RoundHalfUp(Sum(Sort(Remainders(scaled, members), Ascending)))
  }

  function ByRemainder(scaled: seq<real>): (nat, nat) -> bool {
    (i: nat, j: nat) => Remainder(scaled, i) >= Remainder(scaled, j)
  }

  /** A group's members by descending remainder, equal remainders in the group's order. */
  function Ranked(scaled: seq<real>, members: seq<nat>): seq<nat> {
    Sort(members, ByRemainder(scaled))
  }

  /** What one group gives its member `k`: its floor, plus a spare unit if it ranks high enough. */
  function GroupUnit(scaled: seq<real>, members: seq<nat>, k: nat): int
    requires k in members && k < |scaled|
  {
    SameElements(Ranked(scaled, members), members);
    scaled[k].Floor + if IndexOf(Ranked(scaled, members), k) < Spare(scaled, members) then 1 else 0
  }

  /** The unit of position `k`: shared out by its group, or rounded half up alone. */
  function UnitAt(scaled: seq<real>, positions: seq<seq<nat>>, k: nat): int
    requires k < |scaled|
    decreases |positions|
  {
    if positions == [] then RoundHalfUp(scaled[k])
    else if k in positions[|positions| - 1] then GroupUnit(scaled, positions[|positions| - 1], k)
    else UnitAt(scaled, positions[..|positions| - 1], k)
  }

  function Units(scaled: seq<real>, positions: seq<seq<nat>>): (r: seq<int>)
    ensures |r| == |scaled| && forall k | 0 <= k < |r| :: r[k] == UnitAt(scaled, positions, k)
  {
    seq(|scaled|, k requires 0 <= k < |scaled| => UnitAt(scaled, positions, k))
  }

  /** The weights scaled so that `top` becomes the u16 maximum. */
  function Scaled(weights: seq<real>, top: real): (r: seq<real>)
    requires top > 0.0
    ensures |r| == |weights|
  {
    if weights == [] then [] else [weights[0] / top * 65535.0] + Scaled(weights[1..], top)
  }

  lemma {:induction false} ScaledIndex(weights: seq<real>, top: real, k: nat)
    requires top > 0.0 && k < |weights|
    ensures Scaled(weights, top)[k] == weights[k] / top * 65535.0
  {
    if k > 0 {
      ScaledIndex(weights[1..], top, k - 1);
    }
  }

  /** The encoded vote: the nonzero units and the UIDs they belong to. */
  function Compact(uids: seq<int>, units: seq<int>): (r: Vote)
    requires |uids| == |units|
    ensures |r.0| == |r.1| <= |uids|
    decreases |uids|
  {
    if uids == [] then ([], []) else
      var last := |uids| - 1;
      var (us, ws) := Compact(uids[..last], units[..last]);
      if units[last] != 0 then (us + [uids[last]], ws + [units[last]]) else (us, ws)
  }

  /** The specification of the encoder. */
  function Encode(uids: seq<int>, weights: seq<real>, groups: seq<seq<int>>): Result<Vote, WeightError> {
    if |uids| != |weights| then Err(LengthMismatch)
    else if exists k | 0 <= k < |weights| :: weights[k] < 0.0 then Err(NegativeWeight)
    else if exists k | 0 <= k < |uids| :: uids[k] < 0 then Err(NegativeUid)
    else if Sum(weights) == 0.0 then Ok(([], []))
    else if groups != [] && !Distinct(uids) then Err(RepeatedUid)
    else if !DisjointGroups(groups) then Err(UidInTwoGroups)
    else
      PositiveMax(weights);
      Ok(Compact(uids, Units(Scaled(weights, Max(weights)), GroupPositions(uids, groups))))
  }

  lemma PositiveMax(weights: seq<real>)
    requires (forall k | 0 <= k < |weights| :: weights[k] >= 0.0) && Sum(weights) != 0.0
    ensures weights != [] && Max(weights) > 0.0
  {
    if Max(weights) <= 0.0 {
      SumScale(weights, weights, 0.0);
    }
  }

  lemma RankedUnit(scaled: seq<real>, members: seq<nat>, rank: nat)
    requires Distinct(members) && (forall k | k in members :: k < |scaled|) && rank < |Ranked(scaled, members)|
    ensures var ranked := Ranked(scaled, members);
      && ranked[rank] in members
      && GroupUnit(scaled, members, ranked[rank])
          == scaled[ranked[rank]].Floor + if rank < Spare(scaled, members) then 1 else 0
  {
    RankedFacts(scaled, members);
    assert Ranked(scaled, members)[rank] in members;
    IndexOfDistinct(Ranked(scaled, members), rank);
  }

  /** Overwrite the units of one group: floors, and the spare units to the largest remainders. */
  method ShareOut(scaled: seq<real>, before: seq<int>, members: seq<nat>) returns (units: seq<int>)
    requires |before| == |scaled| && Distinct(members) && forall k | k in members :: k < |scaled|
    ensures |units| == |scaled|
    ensures forall k | 0 <= k < |units| ::
        units[k] == if k in members then GroupUnit(scaled, members, k) else before[k]
  {
    var ranked, spare := Ranked(scaled, members), Spare(scaled, members);
    RankedFacts(scaled, members);
    units := before;
    for rank := 0 to |ranked|
      invariant |units| == |scaled|
      invariant forall k | 0 <= k < |units| ::
          units[k] == if k in ranked[..rank] then GroupUnit(scaled, members, k) else before[k]
    {
      RankedUnit(scaled, members, rank);
      var index := ranked[rank];
      assert ranked[..rank + 1] == ranked[..rank] + [index];
      units := units[index := scaled[index].Floor + if rank < spare then 1 else 0];
    }
    assert ranked[..|ranked|] == ranked;
  }

  lemma OneMoreShared(scaled: seq<real>, positions: seq<seq<nat>>, g: nat, units: seq<int>)
    requires g < |positions| && |units| == |scaled|
    requires forall k | 0 <= k < |units| ::
      units[k] == if k in positions[g] then GroupUnit(scaled, positions[g], k) else Units(scaled, positions[..g])[k]
    ensures units == Units(scaled, positions[..g + 1])
  {
    assert positions[..g + 1][..g] == positions[..g];
  }

  lemma OneMoreUnit(uids: seq<int>, units: seq<int>, k: nat)
    requires k < |uids| == |units|
    ensures var (us, ws) := Compact(uids[..k], units[..k]);
      Compact(uids[..k + 1], units[..k + 1]) == if units[k] != 0 then (us + [uids[k]], ws + [units[k]]) else (us, ws)
  {
    assert uids[..k + 1][..k] == uids[..k] && units[..k + 1][..k] == units[..k];
  }

  /** Scale to u16, share each group's units out by largest remainder, drop rounded zeros. */
  method ConvertWeightsAndUidsForEmit(uids: seq<int>, weights: seq<real>, groups: seq<seq<int>>)
    returns (r: Result<Vote, WeightError>)
    ensures r == Encode(uids, weights, groups)
  {
    if |uids| != |weights| {
      return Err(LengthMismatch);
    }
    if exists k | 0 <= k < |weights| :: weights[k] < 0.0 {
      return Err(NegativeWeight);
    }
    if exists k | 0 <= k < |uids| :: uids[k] < 0 {
      return Err(NegativeUid);
    }
    if Sum(weights) == 0.0 {
      return Ok(([], []));
    }
    PositiveMax(weights);
    var scaled := Scaled(weights, Max(weights));
    var units := Units(scaled, []);
    if groups != [] && !Distinct(uids) {
      return Err(RepeatedUid);
    }
    if !DisjointGroups(groups) {
      return Err(UidInTwoGroups);
    }
    var positions := GroupPositions(uids, groups);
    for g := 0 to |positions|
      invariant units == Units(scaled, positions[..g])
    {
      GroupPositionsDistinct(uids, groups, g);
      units := ShareOut(scaled, units, positions[g]);
      OneMoreShared(scaled, positions, g, units);
    }
    assert positions[..|positions|] == positions;
    var us: seq<int>, ws: seq<int> := [], [];
    for k := 0 to |uids|
      invariant (us, ws) == Compact(uids[..k], units[..k])
    {
      OneMoreUnit(uids, units, k);
      if units[k] != 0 {
        us, ws := us + [uids[k]], ws + [units[k]];
      }
    }
    assert uids[..|uids|] == uids && units[..|units|] == units;
    return Ok((us, ws));
  }

  lemma {:induction false} PositionsDistinct(uids: seq<int>, group: seq<int>)
    requires Distinct(uids) && Distinct(group)
    ensures Distinct(PositionsIn(uids, group))
  {
    if group != [] {
      PositionsDistinct(uids, group[1..]);
      assert group[0] !in group[1..];
    }
  }

  lemma GroupPositionsDistinct(uids: seq<int>, groups: seq<seq<int>>, g: nat)
    requires Distinct(uids) && DisjointGroups(groups) && g < |groups|
    ensures Distinct(GroupPositions(uids, groups)[g])
  {
    PositionsDistinct(uids, groups[g]);
  }

  lemma GroupPositionsDisjoint(uids: seq<int>, groups: seq<seq<int>>)
    requires Distinct(uids) && DisjointGroups(groups)
    ensures DisjointGroups(GroupPositions(uids, groups))
  {
    var positions := GroupPositions(uids, groups);
    forall g | 0 <= g < |positions| ensures Distinct(positions[g]) {
      GroupPositionsDistinct(uids, groups, g);
    }
    forall g, h, x | 0 <= g < h < |positions| && x in positions[g] ensures x !in positions[h] {
      assert uids[x] in groups[g];
      assert uids[x] !in groups[h];
    }
  }

  // -- what a group receives ---------------------------------------------

  lemma RankedFacts(scaled: seq<real>, members: seq<nat>)
    requires Distinct(members)
    ensures var r := Ranked(scaled, members);
      && Distinct(r) && |r| == |members| && (forall k :: k in r <==> k in members)
      && forall i, j | 0 <= i < j < |r| :: Remainder(scaled, r[i]) >= Remainder(scaled, r[j])
  {
    SortSorted(members, ByRemainder(scaled));
    DistinctPermutation(members, Ranked(scaled, members));
    SameElements(Ranked(scaled, members), members);
  }
}
