/** What the encoder's rounding does to single entries, to groups and to the whole vote. */
module WeightRounding {
  import opened Wrappers
  import opened Sums
  import opened Sorting
  import opened WeightProcessing

  lemma RemaindersInAnyOrder(scaled: seq<real>, a: seq<nat>, b: seq<nat>)
    requires multiset(a) == multiset(b)
    ensures Sum(Remainders(scaled, a)) == Sum(Remainders(scaled, b))
    decreases |a|
  {
    if a == [] {
      assert |multiset(b)| == |b|;
    } else {
      var i := MatchHead(a, b);
      var rest := b[..i] + b[i + 1..];
      RemaindersInAnyOrder(scaled, a[1..], rest);
      SumRemove(Remainders(scaled, b), i);
      var rs := Remainders(scaled, b);
      assert rs[..i] + rs[i + 1..] == Remainders(scaled, rest);
      assert Remainders(scaled, a)[1..] == Remainders(scaled, a[1..]);
    }
  }

  /** The spare units are the rounded sum of the remainders, in whatever order they are added. */
  lemma SpareOfRanked(scaled: seq<real>, members: seq<nat>)
    ensures Spare(scaled, members) == RoundHalfUp(Sum(Remainders(scaled, members)))
    ensures Sum(Remainders(scaled, members)) == Sum(Remainders(scaled, Ranked(scaled, members)))
  {
    SumPermutation(Sort(Remainders(scaled, members), Ascending), Remainders(scaled, members));
    RemaindersInAnyOrder(scaled, members, Ranked(scaled, members));
  }

  lemma {:induction false} SumOfFractions(s: seq<real>)
    requires forall i | 0 <= i < |s| :: 0.0 <= s[i] <= 1.0
    ensures 0.0 <= Sum(s) <= |s| as real
  {
    if s != [] {
      SumOfFractions(s[1..]);
    }
  }

  /** From the first zero remainder on, no member is reached by a spare unit. */
  lemma SpareStopsAtZero(scaled: seq<real>, members: seq<nat>, r: nat)
    requires Distinct(members) && r <= |members|
    requires |Ranked(scaled, members)| == |members|
    requires r < |members| ==> Remainder(scaled, Ranked(scaled, members)[r]) == 0.0
    ensures 0 <= Spare(scaled, members) <= r
  {
    RankedFacts(scaled, members);
    SpareOfRanked(scaled, members);
    var ranked := Ranked(scaled, members);
    forall i | r <= i < |ranked| ensures Remainder(scaled, ranked[i]) == 0.0 {
      if r < i {
        assert Remainder(scaled, ranked[r]) >= Remainder(scaled, ranked[i]);
      }
    }
    SumOfLeadingFractions(Remainders(scaled, ranked), r);
  }

  lemma SumOfLeadingFractions(s: seq<real>, r: nat)
    requires r <= |s| && (forall i | 0 <= i < |s| :: 0.0 <= s[i] <= 1.0)
    requires forall i | r <= i < |s| :: s[i] == 0.0
    ensures 0 <= RoundHalfUp(Sum(s)) <= r
  {
    SumAppend(s[..r], s[r..]);
    assert s == s[..r] + s[r..];
    SumOfFractions(s[..r]);
    SumOfZeros(s[r..]);
  }

  lemma {:induction false} SumOfZeros(s: seq<real>)
    requires forall i | 0 <= i < |s| :: s[i] == 0.0
    ensures Sum(s) == 0.0
  {
    if s != [] {
      SumOfZeros(s[1..]);
    }
  }

  /** A member of a group gets its floor or one more, and one more only on a positive remainder. */
  lemma GroupUnitRange(scaled: seq<real>, members: seq<nat>, k: nat)
    requires Distinct(members) && k in members && k < |scaled|
    ensures var u := GroupUnit(scaled, members, k);
      && (u == scaled[k].Floor || u == scaled[k].Floor + 1)
      && (Remainder(scaled, k) == 0.0 ==> u == scaled[k].Floor)
  {
    RankedFacts(scaled, members);
    if Remainder(scaled, k) == 0.0 {
      SpareStopsAtZero(scaled, members, IndexOf(Ranked(scaled, members), k));
    }
  }

  function BumpsBefore(n: nat, spare: int): (r: seq<real>)
    ensures |r| == n && forall i | 0 <= i < n :: r[i] == if i < spare then 1.0 else 0.0
  {
    seq(n, i => if i < spare then 1.0 else 0.0)
  }

  lemma {:induction false} SumOfBumps(n: nat, spare: int)
    requires 0 <= spare <= n
    ensures Sum(BumpsBefore(n, spare)) == spare as real
  {
    if n > 0 {
      var s := BumpsBefore(n, spare);
      if spare > 0 {
        assert s[1..] == BumpsBefore(n - 1, spare - 1);
        SumOfBumps(n - 1, spare - 1);
      } else {
        SumScale(s, s, 0.0);
      }
    }
  }

  lemma {:induction false} SumPointwise(a: seq<real>, b: seq<real>, c: seq<real>)
    requires |a| == |b| == |c| && forall i | 0 <= i < |a| :: c[i] == a[i] + b[i]
    ensures Sum(c) == Sum(a) + Sum(b)
  {
    if a != [] {
      SumPointwise(a[1..], b[1..], c[1..]);
    }
  }

  function FloorAt(scaled: seq<real>, k: nat): int {
    if k < |scaled| then scaled[k].Floor else 0
  }

  function FloorsOf(scaled: seq<real>, order: seq<nat>): (r: seq<real>)
    ensures |r| == |order| && forall i | 0 <= i < |r| :: r[i] == FloorAt(scaled, order[i]) as real
  {
    seq(|order|, i requires 0 <= i < |order| => FloorAt(scaled, order[i]) as real)
  }

  lemma {:induction false} SumOfFloors(scaled: seq<real>, order: seq<nat>) returns (n: int)
    ensures Sum(FloorsOf(scaled, order)) == n as real
  {
    if order == [] {
      n := 0;
    } else {
      var m := SumOfFloors(scaled, order[1..]);
      assert FloorsOf(scaled, order)[1..] == FloorsOf(scaled, order[1..]);
      n := FloorAt(scaled, order[0]) + m;
    }
  }

  ghost function ScaledOn(scaled: seq<real>): int -> real {
    (k: int) => if 0 <= k < |scaled| then scaled[k] else 0.0
  }

  ghost function GroupUnitsOn(scaled: seq<real>, members: seq<nat>): int -> real {
    (k: int) => if k in members && k < |scaled| then GroupUnit(scaled, members, k) as real else 0.0
  }

  /** The members' scaled weights are their floors plus their remainders. */
  lemma ScaledTotal(scaled: seq<real>, order: seq<nat>, n: int)
    requires Distinct(order) && forall k | k in order :: k < |scaled|
    requires Sum(FloorsOf(scaled, order)) == n as real
    ensures SumSet((set k: int | k in order), ScaledOn(scaled)) == n as real + Sum(Remainders(scaled, order))
  {
    var floors, rems := FloorsOf(scaled, order), Remainders(scaled, order);
    var values := seq(|order|, i requires 0 <= i < |order| => floors[i] + rems[i]);
    SumPointwise(floors, rems, values);
    forall i | 0 <= i < |order| ensures values[i] == ScaledOn(scaled)(order[i]) {
      assert order[i] in order;
    }
    SumSeqAsSet<int>(order, values, ScaledOn(scaled));
  }

  lemma RankedUnitOn(scaled: seq<real>, members: seq<nat>, i: nat)
    requires Distinct(members) && (forall k | k in members :: k < |scaled|) && i < |Ranked(scaled, members)|
    requires 0 <= Spare(scaled, members) <= |members|
    ensures var r := Ranked(scaled, members);
      GroupUnitsOn(scaled, members)(r[i]) == FloorsOf(scaled, r)[i] + BumpsBefore(|r|, Spare(scaled, members))[i]
  {
    RankedFacts(scaled, members);
    var r := Ranked(scaled, members);
    IndexOfDistinct(r, i);
    assert r[i] in r;
  }

  lemma SameMembersAsSets(a: seq<nat>, b: seq<nat>)
    requires forall k :: k in a <==> k in b
    ensures (set k: int | k in a) == (set k: int | k in b)
  {
  }

  /** The members' units are their floors plus the spare units. */
  lemma UnitsTotal(scaled: seq<real>, members: seq<nat>, n: int)
    requires Distinct(members) && forall k | k in members :: k < |scaled|
    requires Sum(FloorsOf(scaled, Ranked(scaled, members))) == n as real
    ensures SumSet((set k: int | k in members), GroupUnitsOn(scaled, members)) == (n + Spare(scaled, members)) as real
  {
    RankedFacts(scaled, members);
    SpareStopsAtZero(scaled, members, |members|);
    var r, spare := Ranked(scaled, members), Spare(scaled, members);
    var floors, bumps := FloorsOf(scaled, r), BumpsBefore(|r|, spare);
    var units := seq(|r|, i requires 0 <= i < |r| => floors[i] + bumps[i]);
    SumPointwise(floors, bumps, units);
    SumOfBumps(|r|, spare);
    forall i | 0 <= i < |r| ensures units[i] == GroupUnitsOn(scaled, members)(r[i]) {
      RankedUnitOn(scaled, members, i);
    }
    SumSeqAsSet<int>(r, units, GroupUnitsOn(scaled, members));
    SameMembersAsSets(members, r);
  }

  lemma RoundShift(n: int, x: real)
    ensures RoundHalfUp(n as real + x) == n + RoundHalfUp(x)
  {
    var f := (x + 0.5).Floor;
    assert (n + f) as real <= n as real + x + 0.5 < (n + f + 1) as real;
  }

  /** A group's total is its scaled total rounded half up exactly once. */
  lemma GroupTotal(scaled: seq<real>, members: seq<nat>)
    requires Distinct(members) && forall k | k in members :: k < |scaled|
    ensures var all := set k: int | k in members;
      SumSet(all, GroupUnitsOn(scaled, members)) == RoundHalfUp(SumSet(all, ScaledOn(scaled))) as real
  {
    RankedFacts(scaled, members);
    SpareOfRanked(scaled, members);
    var r := Ranked(scaled, members);
    var n := SumOfFloors(scaled, r);
    UnitsTotal(scaled, members, n);
    ScaledTotal(scaled, r, n);
    SameMembersAsSets(members, r);
    var all := set k: int | k in members;
    RoundedOnce(SumSet(all, ScaledOn(scaled)), SumSet(all, GroupUnitsOn(scaled, members)), n, Spare(scaled, members),
                Sum(Remainders(scaled, r)));
  }

  lemma RoundedOnce(total: real, units: real, n: int, spare: int, rest: real)
    requires total == n as real + rest && units == (n + spare) as real && spare == RoundHalfUp(rest)
    ensures units == RoundHalfUp(total) as real
  {
    RoundShift(n, rest);
  }

  // -- how a group's order matters -----------------------------------------

  lemma LargerIsEarlier(scaled: seq<real>, members: seq<nat>, i: nat, j: nat)
    requires Distinct(members) && i in members && j in members && Remainder(scaled, i) > Remainder(scaled, j)
    ensures var r := Ranked(scaled, members);
      i in r && j in r && IndexOf(r, i) < IndexOf(r, j)
  {
    RankedFacts(scaled, members);
  }

  lemma TiedIsEarlier(scaled: seq<real>, members: seq<nat>, i: nat, j: nat)
    requires Distinct(members) && i in members && j in members
    requires Remainder(scaled, i) == Remainder(scaled, j) && Before(members, i, j)
    ensures var r := Ranked(scaled, members);
      i in r && j in r && IndexOf(r, i) < IndexOf(r, j)
  {
    var r := Ranked(scaled, members);
    RankedFacts(scaled, members);
    SortStable(members, ByRemainder(scaled), i, j);
    var x, y :| 0 <= x < y < |r| && r[x] == i && r[y] == j;
    IndexOfDistinct(r, x);
    IndexOfDistinct(r, y);
  }

  lemma ServedByRank(scaled: seq<real>, members: seq<nat>, k: nat)
    requires k in members && k < |scaled| && k in Ranked(scaled, members)
    ensures GroupUnit(scaled, members, k) > scaled[k].Floor <==>
      IndexOf(Ranked(scaled, members), k) < Spare(scaled, members)
  {
  }

  /** A larger remainder is served first, and equal remainders in the group's order. */
  lemma SpareUnitsFollowRank(scaled: seq<real>, members: seq<nat>, i: nat, j: nat)
    requires Distinct(members) && (forall k | k in members :: k < |scaled|) && i in members && j in members
    requires Remainder(scaled, i) > Remainder(scaled, j)
          || (Remainder(scaled, i) == Remainder(scaled, j) && Before(members, i, j))
    ensures GroupUnit(scaled, members, j) > scaled[j].Floor ==> GroupUnit(scaled, members, i) > scaled[i].Floor
  {
    if Remainder(scaled, i) == Remainder(scaled, j) {
      TiedIsEarlier(scaled, members, i, j);
    } else {
      LargerIsEarlier(scaled, members, i, j);
    }
    ServedByRank(scaled, members, i);
    ServedByRank(scaled, members, j);
  }

  ghost function Bumped(scaled: seq<real>, members: seq<nat>): set<nat>
    requires forall k | k in members :: k < |scaled|
  {
    set k | k in members && GroupUnit(scaled, members, k) > scaled[k].Floor
  }

  lemma BumpedAreTop(scaled: seq<real>, members: seq<nat>, k: nat)
    requires Distinct(members) && (forall m | m in members :: m < |scaled|) && k in members
    requires 0 <= Spare(scaled, members) <= |Ranked(scaled, members)|
    ensures k in Bumped(scaled, members) <==> k in Ranked(scaled, members)[..Spare(scaled, members)]
  {
    RankedFacts(scaled, members);
    var r, spare := Ranked(scaled, members), Spare(scaled, members);
    var i := IndexOf(r, k);
    assert i < spare ==> r[..spare][i] == k;
    if k in r[..spare] {
      var x :| 0 <= x < spare && r[..spare][x] == k;
      IndexOfDistinct(r, x);
    }
  }

  lemma BumpedCount(scaled: seq<real>, members: seq<nat>)
    requires Distinct(members) && forall k | k in members :: k < |scaled|
    ensures |Bumped(scaled, members)| == Spare(scaled, members)
  {
    RankedFacts(scaled, members);
    SpareStopsAtZero(scaled, members, |members|);
    var r := Ranked(scaled, members);
    var top := r[..Spare(scaled, members)];
    forall k: nat | k in members ensures k in Bumped(scaled, members) <==> k in top {
      BumpedAreTop(scaled, members, k);
    }
    assert forall k | k in top :: k in r;
    assert Bumped(scaled, members) == (set k: nat | k in top);
    CountDistinct<nat>(top);
  }

  lemma {:induction false} CountDistinct<T>(s: seq<T>)
    requires Distinct(s)
    ensures |(set k | k in s)| == |s|
  {
    if s != [] {
      CountDistinct(s[1..]);
      assert (set k | k in s) == {s[0]} + (set k | k in s[1..]);
    } else {
      assert (set k | k in s) == {};
    }
  }

  /** A member bumped only in the first order and one bumped only in the second have equal remainders. */
  lemma ExchangedAreTies(scaled: seq<real>, a: seq<nat>, b: seq<nat>, i: nat, m: nat)
    requires Distinct(a) && Distinct(b) && (forall k :: k in a <==> k in b) && forall k | k in a :: k < |scaled|
    requires i in Bumped(scaled, a) - Bumped(scaled, b) && m in Bumped(scaled, b) - Bumped(scaled, a)
    ensures Remainder(scaled, i) == Remainder(scaled, m)
  {
    if Remainder(scaled, m) > Remainder(scaled, i) {
      SpareUnitsFollowRank(scaled, a, m, i);
    } else if Remainder(scaled, i) > Remainder(scaled, m) {
      SpareUnitsFollowRank(scaled, b, i, m);
    }
  }

  /** Two sets of the same size miss as many of each other's elements. */
  lemma ExchangeSizes(a: set<nat>, b: set<nat>)
    requires |a| == |b|
    ensures |a - b| == |b - a|
  {
    assert |a - b| == |a| - |a * b| && |b - a| == |b| - |a * b|;
  }

  lemma MovedIsExchanged(scaled: seq<real>, a: seq<nat>, b: seq<nat>, i: nat)
    requires (forall k :: k in a <==> k in b) && (forall k | k in a :: k < |scaled|) && i in a
    requires GroupUnit(scaled, a, i) != GroupUnit(scaled, b, i)
    ensures i in (Bumped(scaled, a) - Bumped(scaled, b)) + (Bumped(scaled, b) - Bumped(scaled, a))
  {
  }

  lemma TiesShareRemainder(scaled: seq<real>, sa: set<nat>, sb: set<nat>, i: nat, j: nat)
    requires |sa| == |sb|
    requires forall x, y | x in sa - sb && y in sb - sa :: Remainder(scaled, x) == Remainder(scaled, y)
    requires i in (sa - sb) + (sb - sa) && j in (sa - sb) + (sb - sa)
    ensures Remainder(scaled, i) == Remainder(scaled, j)
  {
    ExchangeSizes(sa, sb);
    if i in sa - sb && j in sa - sb {
      var m :| m in sb - sa;
      assert Remainder(scaled, i) == Remainder(scaled, m);
    } else if i in sb - sa && j in sb - sa {
      var m :| m in sa - sb;
      assert Remainder(scaled, m) == Remainder(scaled, i);
    }
  }

  /** Reordering a group keeps how many members are bumped. */
  lemma ReorderKeepsSpare(scaled: seq<real>, a: seq<nat>, b: seq<nat>)
    requires multiset(a) == multiset(b) && Distinct(a) && forall k | k in a :: k < |scaled|
    ensures Distinct(b) && forall k :: k in a <==> k in b
    ensures Spare(scaled, a) == Spare(scaled, b) == |Bumped(scaled, a)| == |Bumped(scaled, b)|
  {
    SameElements(a, b);
    DistinctPermutation(a, b);
    SpareOfRanked(scaled, a);
    SpareOfRanked(scaled, b);
    RemaindersInAnyOrder(scaled, a, b);
    BumpedCount(scaled, a);
    BumpedCount(scaled, b);
  }

  /** And moves spare units only between equal remainders. */
  lemma ReorderMovesOnlyTies(scaled: seq<real>, a: seq<nat>, b: seq<nat>, i: nat, j: nat)
    requires multiset(a) == multiset(b) && Distinct(a) && (forall k :: k in a <==> k in b)
    requires forall k | k in a :: k < |scaled|
    requires i in a && GroupUnit(scaled, a, i) != GroupUnit(scaled, b, i)
    requires j in a && GroupUnit(scaled, a, j) != GroupUnit(scaled, b, j)
    ensures Remainder(scaled, i) == Remainder(scaled, j)
  {
    ReorderKeepsSpare(scaled, a, b);
    var sa, sb := Bumped(scaled, a), Bumped(scaled, b);
    forall x, y | x in sa - sb && y in sb - sa ensures Remainder(scaled, x) == Remainder(scaled, y) {
      ExchangedAreTies(scaled, a, b, x, y);
    }
    MovedIsExchanged(scaled, a, b, i);
    MovedIsExchanged(scaled, a, b, j);
    TiesShareRemainder(scaled, sa, sb, i, j);
  }

  // -- the whole encoded vector ------------------------------------------

  lemma {:induction false} UnitInGroup(scaled: seq<real>, positions: seq<seq<nat>>, g: nat, k: nat)
    requires DisjointGroups(positions) && g < |positions| && k in positions[g] && k < |scaled|
    ensures UnitAt(scaled, positions, k) == GroupUnit(scaled, positions[g], k)
    decreases |positions|
  {
    if g < |positions| - 1 {
      UnitInGroup(scaled, positions[..|positions| - 1], g, k);
    }
  }

  lemma {:induction false} UnitAlone(scaled: seq<real>, positions: seq<seq<nat>>, k: nat)
    requires (forall g | 0 <= g < |positions| :: k !in positions[g]) && k < |scaled|
    ensures UnitAt(scaled, positions, k) == RoundHalfUp(scaled[k])
    decreases |positions|
  {
    if positions != [] {
      UnitAlone(scaled, positions[..|positions| - 1], k);
    }
  }

  /** Every unit is the floor of its scaled weight or one more, and exact when that is an integer. */
  lemma UnitRange(scaled: seq<real>, positions: seq<seq<nat>>, k: nat)
    requires DisjointGroups(positions) && k < |scaled|
    ensures var u := UnitAt(scaled, positions, k);
      && (u == scaled[k].Floor || u == scaled[k].Floor + 1)
      && (Remainder(scaled, k) == 0.0 ==> u == scaled[k].Floor)
  {
    if g :| 0 <= g < |positions| && k in positions[g] {
      UnitInGroup(scaled, positions, g, k);
      GroupUnitRange(scaled, positions[g], k);
    } else {
      UnitAlone(scaled, positions, k);
    }
  }

  ghost function ErrorsOn(scaled: seq<real>, positions: seq<seq<nat>>): int -> real {
    (k: int) => if 0 <= k < |scaled| then UnitAt(scaled, positions, k) as real - scaled[k] else 0.0
  }

  /** One group errs by at most a half in total, however many members it has. */
  lemma GroupError(scaled: seq<real>, positions: seq<seq<nat>>, g: nat)
    requires DisjointGroups(positions) && g < |positions| && forall k | k in positions[g] :: k < |scaled|
    ensures -0.5 <= SumSet((set k: int | k in positions[g]), ErrorsOn(scaled, positions)) <= 0.5
  {
    var all := set k: int | k in positions[g];
    forall k | k in all
      ensures ErrorsOn(scaled, positions)(k) == GroupUnitsOn(scaled, positions[g])(k) - ScaledOn(scaled)(k)
    {
      UnitInGroup(scaled, positions, g, k);
    }
    SumSetDifference(all, GroupUnitsOn(scaled, positions[g]), ScaledOn(scaled), ErrorsOn(scaled, positions));
    GroupTotal(scaled, positions[g]);
  }

  /** `u` holds the first `m` groups' positions and none of a later group's. */
  ghost predicate HoldsFirst(positions: seq<seq<nat>>, m: nat, u: set<int>) {
    && m <= |positions|
    && (forall g, k | 0 <= g < m && k in positions[g] :: k in u)
    && (forall g, k | m <= g < |positions| && k in positions[g] :: k !in u)
  }

  lemma HoldsFewer(positions: seq<seq<nat>>, m: nat, u: set<int>, members: seq<nat>, all: set<int>)
    requires DisjointGroups(positions) && m > 0 && HoldsFirst(positions, m, u)
    requires members == positions[m - 1] && all == set k: int | k in members
    ensures all <= u && HoldsFirst(positions, m - 1, u - all)
  {
    forall g, k | 0 <= g < m - 1 && k in positions[g] ensures k in u - all {
      assert k in u;
    }
  }

  lemma AloneError(scaled: seq<real>, positions: seq<seq<nat>>, u: set<int>)
    requires HoldsFirst(positions, 0, u) && forall k | k in u :: 0 <= k < |scaled|
    ensures -0.5 * |u| as real <= SumSet(u, ErrorsOn(scaled, positions)) <= 0.5 * |u| as real
  {
    var d := ErrorsOn(scaled, positions);
    forall k | k in u ensures -0.5 <= d(k) <= 0.5 {
      UnitAlone(scaled, positions, k);
    }
    SumSetOfHalves(u, d);
  }

  /** The first `m` groups and the ungrouped positions of `u` err by at most half their number. */
  lemma {:induction false} ErrorOver(scaled: seq<real>, positions: seq<seq<nat>>, m: nat, u: set<int>)
    requires DisjointGroups(positions) && HoldsFirst(positions, m, u)
    requires forall g, k | 0 <= g < |positions| && k in positions[g] :: k < |scaled|
    requires forall k | k in u :: 0 <= k < |scaled|
    ensures -0.5 * |u| as real <= SumSet(u, ErrorsOn(scaled, positions)) <= 0.5 * |u| as real
    decreases m
  {
    if m == 0 {
      AloneError(scaled, positions, u);
    } else {
      var members := positions[m - 1];
      var all := set k: int | k in members;
      HoldsFewer(positions, m, u, members, all);
      ErrorOver(scaled, positions, m - 1, u - all);
      GroupError(scaled, positions, m - 1);
      ErrorWithGroup(all, u, ErrorsOn(scaled, positions));
    }
  }

  lemma ErrorWithGroup(all: set<int>, u: set<int>, d: int -> real)
    requires all <= u && -0.5 <= SumSet(all, d) <= 0.5
    requires -0.5 * |u - all| as real <= SumSet(u - all, d) <= 0.5 * |u - all| as real
    ensures -0.5 * |u| as real <= SumSet(u, d) <= 0.5 * |u| as real
  {
    assert u == all + (u - all);
    if all == {} {
      assert u - all == u;
    } else {
      SumSetUnion(all, u - all, d);
      assert |u| == |all| + |u - all| && |all| >= 1;
    }
  }

  function Total(s: seq<int>): int {
    if s == [] then 0 else Total(s[..|s| - 1]) + s[|s| - 1]
  }

  function Range(n: nat): (r: seq<int>)
    ensures |r| == n && (forall i | 0 <= i < n :: r[i] == i) && Distinct(r)
  {
    seq(n, i => i)
  }

  lemma {:induction false} TotalAsSum(s: seq<int>, t: seq<real>)
    requires |s| == |t| && forall i | 0 <= i < |s| :: t[i] == s[i] as real
    ensures Sum(t) == Total(s) as real
  {
    if s != [] {
      var n := |s| - 1;
      TotalAsSum(s[..n], t[..n]);
      SumAppend(t[..n], t[n..]);
      assert t == t[..n] + t[n..];
      assert t[n..][1..] == [];
    }
  }

  lemma ErrorsAsSet(scaled: seq<real>, positions: seq<seq<nat>>, errors: seq<real>)
    requires |errors| == |scaled|
    requires forall k | 0 <= k < |errors| :: errors[k] == UnitAt(scaled, positions, k) as real - scaled[k]
    ensures Sum(errors) == SumSet((set k: int | k in Range(|scaled|)), ErrorsOn(scaled, positions))
  {
    var d := ErrorsOn(scaled, positions);
    forall k | 0 <= k < |errors| ensures errors[k] == d(Range(|scaled|)[k]) {
    }
    SumSeqAsSet<int>(Range(|scaled|), errors, d);
  }

  lemma ErrorEverywhere(scaled: seq<real>, positions: seq<seq<nat>>)
    requires DisjointGroups(positions)
    requires forall g, k | 0 <= g < |positions| && k in positions[g] :: k < |scaled|
    ensures var error := SumSet((set k: int | k in Range(|scaled|)), ErrorsOn(scaled, positions));
      -0.5 * |scaled| as real <= error <= 0.5 * |scaled| as real
  {
    var range := Range(|scaled|);
    var all := set k: int | k in range;
    forall g, k | 0 <= g < |positions| && k in positions[g] ensures k in all {
      assert range[k] == k;
    }
    ErrorOver(scaled, positions, |positions|, all);
    CountDistinct(range);
  }

  /** The u16 total differs from the exact scaled total by at most half a unit per position. */
  lemma TotalError(scaled: seq<real>, positions: seq<seq<nat>>)
    requires DisjointGroups(positions)
    requires forall g, k | 0 <= g < |positions| && k in positions[g] :: k < |scaled|
    ensures var error := Total(Units(scaled, positions)) as real - Sum(scaled);
      -0.5 * |scaled| as real <= error <= 0.5 * |scaled| as real
  {
    var units, n := Units(scaled, positions), |scaled|;
    var asReals := seq(n, k requires 0 <= k < n => units[k] as real);
    var errors := seq(n, k requires 0 <= k < n => units[k] as real - scaled[k]);
    TotalAsSum(units, asReals);
    SumPointwise(errors, scaled, asReals);
    ErrorsAsSet(scaled, positions, errors);
    ErrorEverywhere(scaled, positions);
  }

  /** The positions whose unit survives, in order. */
  function Kept(units: seq<int>): (r: seq<nat>)
    ensures forall p | 0 <= p < |r| :: r[p] < |units| && units[r[p]] != 0
    ensures forall p, q | 0 <= p < q < |r| :: r[p] < r[q]
    ensures forall k | 0 <= k < |units| && units[k] != 0 :: k in r
  {
    if units == [] then [] else
      var n := |units| - 1;
      var r := Kept(units[..n]);
      if units[n] != 0 then r + [n] else r
  }

  lemma {:induction false} CompactKeeps(uids: seq<int>, units: seq<int>)
    requires |uids| == |units|
    ensures var (us, ws) := Compact(uids, units);
      && |us| == |Kept(units)|
      && forall p | 0 <= p < |us| :: us[p] == uids[Kept(units)[p]] && ws[p] == units[Kept(units)[p]]
    decreases |uids|
  {
    if uids != [] {
      var n := |uids| - 1;
      CompactKeeps(uids[..n], units[..n]);
      var r := Kept(units[..n]);
      var (us, ws) := Compact(uids[..n], units[..n]);
      forall p | 0 <= p < |us| ensures us[p] == uids[r[p]] && ws[p] == units[r[p]] {
        assert us[p] == uids[..n][r[p]];
      }
    }
  }

  lemma {:induction false} CompactTotal(uids: seq<int>, units: seq<int>)
    requires |uids| == |units|
    ensures Total(Compact(uids, units).1) == Total(units)
    decreases |uids|
  {
    if uids != [] {
      var n := |uids| - 1;
      CompactTotal(uids[..n], units[..n]);
      var ws := Compact(uids[..n], units[..n]).1;
      assert (ws + [units[n]])[..|ws|] == ws;
    }
  }

  /** Dropping rounded zeros keeps every other entry with its UID, and the total. */
  lemma CompactFacts(uids: seq<int>, units: seq<int>)
    requires |uids| == |units| && Distinct(uids)
    ensures var (us, ws) := Compact(uids, units);
      && Distinct(us)
      && (forall p | 0 <= p < |us| :: us[p] in uids && ws[p] == units[IndexOf(uids, us[p])] != 0)
      && (forall k | 0 <= k < |uids| && units[k] != 0 :: uids[k] in us && units[k] in ws)
  {
    CompactKeeps(uids, units);
    var (us, ws) := Compact(uids, units);
    var kept := Kept(units);
    forall p | 0 <= p < |us| ensures us[p] in uids && ws[p] == units[IndexOf(uids, us[p])] != 0 {
      IndexOfDistinct(uids, kept[p]);
    }
    forall k | 0 <= k < |uids| && units[k] != 0 ensures uids[k] in us && units[k] in ws {
      var p := IndexOf(kept, k);
      assert us[p] == uids[k] && ws[p] == units[k];
    }
  }

  lemma QuotientFacts(w: real, top: real)
    requires 0.0 <= w <= top && top > 0.0
    ensures 0.0 <= w / top * 65535.0 <= 65535.0
    ensures w == top ==> w / top * 65535.0 == 65535.0
    ensures w == 0.0 ==> w / top * 65535.0 == 0.0
  {
  }

  lemma ScaledAt(weights: seq<real>, k: nat)
    requires (forall i | 0 <= i < |weights| :: weights[i] >= 0.0) && k < |weights| && Max(weights) > 0.0
    ensures 0.0 <= Scaled(weights, Max(weights))[k] <= 65535.0
    ensures weights[k] == Max(weights) ==> Scaled(weights, Max(weights))[k] == 65535.0
    ensures weights[k] == 0.0 ==> Scaled(weights, Max(weights))[k] == 0.0
  {
    ScaledIndex(weights, Max(weights), k);
    QuotientFacts(weights[k], Max(weights));
  }

  lemma UndoQuotient(w: real, top: real)
    requires top > 0.0
    ensures w / top * 65535.0 * top == w * 65535.0
  {
  }

  lemma {:induction false} ScaledSum(weights: seq<real>, top: real)
    requires top > 0.0
    ensures Sum(Scaled(weights, top)) * top == Sum(weights) * 65535.0
  {
    if weights != [] {
      ScaledSum(weights[1..], top);
      UndoQuotient(weights[0], top);
      Distribute(weights[0] / top * 65535.0, Sum(Scaled(weights[1..], top)), top);
    }
  }

  lemma {:induction false} ScaledTimesTop(weights: seq<real>, top: real, k: nat)
    requires top > 0.0 && k < |weights|
    ensures Scaled(weights, top)[k] * top == weights[k] * 65535.0
  {
    if k > 0 {
      ScaledTimesTop(weights[1..], top, k - 1);
      assert Scaled(weights, top)[k] == Scaled(weights[1..], top)[k - 1];
    } else {
      UndoQuotient(weights[0], top);
    }
  }

  lemma Distribute(a: real, b: real, c: real)
    ensures (a + b) * c == a * c + b * c
  {
  }

  lemma ShareOfUnit(w: real, top: real, s: real, total: real)
    requires 0.0 <= w && 0.0 < top <= 1.0
    requires s * top == w * 65535.0 && total * top == 65535.0
    ensures s == w * total && s >= w * 65535.0
  {
    assert (s - w * total) * top == 0.0;
    assert s == w * total && total >= 65535.0;
  }

  lemma MaxOfUnit(weights: seq<real>)
    requires (forall i | 0 <= i < |weights| :: weights[i] >= 0.0) && Sum(weights) == 1.0
    ensures weights != [] && 0.0 < Max(weights) <= 1.0
  {
    PositiveMax(weights);
    SumNonNegative(weights);
  }

  /** Scaling a unit vector keeps each weight's share, and gives a share `w` at least 65535 w units. */
  lemma ScaledShare(weights: seq<real>, k: nat, top: real, w: real, s: real, total: real)
    requires k < |weights| && Sum(weights) == 1.0 && 0.0 < top <= 1.0 && w == weights[k] >= 0.0
    requires s == Scaled(weights, top)[k] && total == Sum(Scaled(weights, top))
    ensures s == w * total && s >= w * 65535.0
  {
    assert s * top == w * 65535.0 by {
      ScaledTimesTop(weights, top, k);
    }
    assert total * top == 65535.0 by {
      ScaledSum(weights, top);
    }
    ShareOfUnit(w, top, s, total);
  }

  /** Dropping zero units leaves distinct UIDs, entries within u16 and the largest of them. */
  lemma CompactVote(uids: seq<int>, units: seq<int>, top: nat)
    requires |uids| == |units| && Distinct(uids) && top < |units|
    requires (forall k | 0 <= k < |units| :: 0 <= units[k] <= U16_MAX) && units[top] == U16_MAX
    ensures var (us, ws) := Compact(uids, units);
      && Distinct(us) && U16_MAX in ws && Total(ws) == Total(units)
      && (forall p | 0 <= p < |ws| :: us[p] in uids && 0 < ws[p] <= U16_MAX && ws[p] == units[IndexOf(uids, us[p])])
      && (forall k | 0 <= k < |uids| && units[k] != 0 :: uids[k] in us)
  {
    CompactFacts(uids, units);
    CompactTotal(uids, units);
  }

  lemma UnitBounds(scaled: seq<real>, positions: seq<seq<nat>>, k: nat)
    requires DisjointGroups(positions) && k < |scaled| && 0.0 <= scaled[k] <= 65535.0
    ensures var u := UnitAt(scaled, positions, k);
      0 <= u <= U16_MAX && (scaled[k] == 0.0 ==> u == 0) && (scaled[k] == 65535.0 ==> u == U16_MAX)
  {
    UnitRange(scaled, positions, k);
  }

  /** A vote of these units: its UIDs distinct and of positive value, its weights positive and at most the maximum,
      which some UID has; no unit is dropped. */
  ghost predicate EncodesUnits(uids: seq<int>, values: seq<real>, units: seq<int>, us: seq<int>, ws: seq<int>) {
    && |us| == |ws| && |uids| == |values| == |units| && Distinct(us) && U16_MAX in ws && Total(ws) == Total(units)
    && (forall p | 0 <= p < |ws| :: us[p] in uids && 0 < ws[p] <= U16_MAX && ws[p] == units[IndexOf(uids, us[p])])
    && (forall p | 0 <= p < |us| :: values[IndexOf(uids, us[p])] > 0.0)
    && (forall k | 0 <= k < |uids| && units[k] != 0 :: uids[k] in us)
  }

  lemma EncodedUnits(uids: seq<int>, scaled: seq<real>, positions: seq<seq<nat>>, top: nat)
    requires |uids| == |scaled| && Distinct(uids) && DisjointGroups(positions)
    requires (forall k | 0 <= k < |scaled| :: 0.0 <= scaled[k] <= 65535.0) && top < |scaled| && scaled[top] == 65535.0
    ensures var units := Units(scaled, positions);
      var (us, ws) := Compact(uids, units);
      EncodesUnits(uids, scaled, units, us, ws)
  {
    var units := Units(scaled, positions);
    forall k | 0 <= k < |uids|
      ensures 0 <= units[k] <= U16_MAX && (scaled[k] == 0.0 ==> units[k] == 0)
      ensures scaled[k] == 65535.0 ==> units[k] == U16_MAX
    {
      UnitBounds(scaled, positions, k);
    }
    CompactVote(uids, units, top);
  }

  lemma ScaledBounds(weights: seq<real>, top: real)
    requires (forall i | 0 <= i < |weights| :: weights[i] >= 0.0) && weights != [] && top == Max(weights) > 0.0
    ensures forall k | 0 <= k < |weights| :: 0.0 <= Scaled(weights, top)[k] <= 65535.0
    ensures Scaled(weights, top)[IndexOf(weights, top)] == 65535.0
    ensures forall k | 0 <= k < |weights| && weights[k] == 0.0 :: Scaled(weights, top)[k] == 0.0
  {
    forall k | 0 <= k < |weights|
      ensures 0.0 <= Scaled(weights, top)[k] <= 65535.0
      ensures weights[k] == 0.0 ==> Scaled(weights, top)[k] == 0.0
    {
      ScaledAt(weights, k);
    }
    ScaledAt(weights, IndexOf(weights, top));
  }

  /** What the encoder promises of every vote that holds any weight. */
  lemma EncodedVote(uids: seq<int>, weights: seq<real>, groups: seq<seq<int>>, scaled: seq<real>, us: seq<int>,
                    ws: seq<int>)
    requires |uids| == |weights| && Distinct(uids) && DisjointGroups(groups)
    requires (forall k | 0 <= k < |weights| :: weights[k] >= 0.0)
    requires weights != [] && Max(weights) > 0.0 && scaled == Scaled(weights, Max(weights))
    requires (us, ws) == Compact(uids, Units(scaled, GroupPositions(uids, groups)))
    ensures EncodesUnits(uids, weights, Units(scaled, GroupPositions(uids, groups)), us, ws)
  {
    GroupPositionsDisjoint(uids, groups);
    ScaledBounds(weights, Max(weights));
    EncodedUnits(uids, scaled, GroupPositions(uids, groups), IndexOf(weights, Max(weights)));
    forall k | 0 <= k < |weights| && scaled[k] > 0.0 ensures weights[k] > 0.0 {
      ScaledIndex(weights, Max(weights), k);
    }
    SameVote(uids, scaled, weights, Units(scaled, GroupPositions(uids, groups)), us, ws);
  }

  lemma SameVote(uids: seq<int>, scaled: seq<real>, weights: seq<real>, units: seq<int>, us: seq<int>, ws: seq<int>)
    requires EncodesUnits(uids, scaled, units, us, ws) && |weights| == |scaled|
    requires forall k | 0 <= k < |weights| && scaled[k] > 0.0 :: weights[k] > 0.0
    ensures EncodesUnits(uids, weights, units, us, ws)
  {
  }

  lemma EncodeAccepts(uids: seq<int>, weights: seq<real>, groups: seq<seq<int>>)
    requires |uids| == |weights| && Distinct(uids) && DisjointGroups(groups)
    requires (forall k | 0 <= k < |uids| :: uids[k] >= 0) && (forall k | 0 <= k < |weights| :: weights[k] >= 0.0)
    requires Sum(weights) > 0.0
    ensures weights != [] && Max(weights) > 0.0
    ensures Encode(uids, weights, groups)
         == Ok(Compact(uids, Units(Scaled(weights, Max(weights)), GroupPositions(uids, groups))))
  {
    PositiveMax(weights);
  }

  ghost predicate SomeNegative(weights: seq<real>) {
    exists k :: 0 <= k < |weights| && weights[k] < 0.0
  }

  ghost predicate SomeUidNegative(uids: seq<int>) {
    exists k :: 0 <= k < |uids| && uids[k] < 0
  }

  /** Which vectors are refused, and why: the first fault in this order. A vector of zeros is an empty vote before its
      groups are looked at. */
  lemma EncodeRefusesExactly(uids: seq<int>, weights: seq<real>, groups: seq<seq<int>>)
    ensures var r := Encode(uids, weights, groups);
      && (r == Err(LengthMismatch) <==> |uids| != |weights|)
      && (|uids| == |weights| ==>
            && (r == Err(NegativeWeight) <==> SomeNegative(weights))
            && (!SomeNegative(weights) ==>
                  && (r == Err(NegativeUid) <==> SomeUidNegative(uids))
                  && (!SomeUidNegative(uids) ==>
                        && ((forall k | 0 <= k < |weights| :: weights[k] == 0.0) ==> r == Ok(([], [])))
                        && (r.Err? <==>
                              && !(forall k | 0 <= k < |weights| :: weights[k] == 0.0)
                              && ((groups != [] && !Distinct(uids)) || !DisjointGroups(groups)))
                        && (r.Err? ==> r.error == if groups != [] && !Distinct(uids) then RepeatedUid
                                                  else UidInTwoGroups))))
  {
    if |uids| == |weights| && !SomeNegative(weights) {
      SumNonNegative(weights);
      if forall k | 0 <= k < |weights| :: weights[k] == 0.0 {
        SumOfZeros(weights);
      }
    }
  }
}
