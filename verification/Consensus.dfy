/** Consensus of miners' submissions: a weighted median and its weighted absolute deviation. */
module Consensus {
  import opened Sums
  import opened Sorting

  const MIN_CONSENSUS_WEIGHT := 0.01

  datatype Entry = Entry(value: int, weight: real)

  /** Python's order on (value, weight) pairs. */
  predicate InOrder(a: Entry, b: Entry) {
    a.value < b.value || (a.value == b.value && a.weight <= b.weight)
  }

  function Total(s: seq<Entry>): real {
    if s == [] then 0.0 else s[0].weight + Total(s[1..])
  }

  function Scan(ordered: seq<Entry>, k: nat, cumulative: real, half: real): int
    requires k <= |ordered| && ordered != []
    decreases |ordered| - k
  {
    if k == |ordered| then ordered[|ordered| - 1].value
    else if cumulative + ordered[k].weight >= half then ordered[k].value
    else Scan(ordered, k + 1, cumulative + ordered[k].weight, half)
  }

  function MedianOf(ordered: seq<Entry>): int
    requires ordered != []
  {
    if Total(ordered) <= 0.0 then ordered[(|ordered| - 1) / 2].value
    else Scan(ordered, 0, 0.0, Total(ordered) / 2.0)
  }

  /** The specification of weighted_median; the empty list is refused by the source. */
  function WeightedMedian(values: seq<Entry>): int
    requires values != []
  {
    MedianOf(Sort(values, InOrder))
  }

  function Distance(a: int, b: int): nat {
    if a <= b then b - a else a - b
  }

  function Deviations(values: seq<Entry>, median: int): (r: seq<Entry>)
    ensures |r| == |values| && forall i | 0 <= i < |r| ::
      r[i] == Entry(Distance(values[i].value, median), values[i].weight)
  {
    seq(|values|, i requires 0 <= i < |values| => Entry(Distance(values[i].value, median), values[i].weight))
  }

  function ConsensusWeight(blends: map<string, real>, hotkey: string): (r: real)
    ensures r >= MIN_CONSENSUS_WEIGHT
    ensures r > MIN_CONSENSUS_WEIGHT ==> hotkey in blends && r == blends[hotkey]
  {
    var blend := if hotkey in blends then blends[hotkey] else 0.0;
    if blend >= MIN_CONSENSUS_WEIGHT then blend else MIN_CONSENSUS_WEIGHT
  }

  lemma TotalFrom(s: seq<Entry>, i: nat)
    requires i < |s|
    ensures Total(s[i..]) == s[i].weight + Total(s[i + 1..])
  {
    assert s[i..][1..] == s[i + 1..];
  }

  lemma ScanTurn(ordered: seq<Entry>, k: nat, cumulative: real, half: real)
    requires k < |ordered|
    ensures var next := cumulative + ordered[k].weight;
      Scan(ordered, k, cumulative, half) == if next >= half then ordered[k].value else Scan(ordered, k + 1, next, half)
  {
  }

  method FindWeightedMedian(values: seq<Entry>) returns (r: int)
    requires values != []
    ensures r == WeightedMedian(values)
  {
    var ordered := Sort(values, InOrder);
    var total := 0.0;
    for i := 0 to |ordered|
      invariant total + Total(ordered[i..]) == Total(ordered)
    {
      TotalFrom(ordered, i);
      total := total + ordered[i].weight;
    }
    assert ordered[|ordered|..] == [];
    if total <= 0.0 {
      return ordered[(|ordered| - 1) / 2].value;
    }
    var half, cumulative := total / 2.0, 0.0;
    for k := 0 to |ordered|
      invariant Scan(ordered, k, cumulative, half) == Scan(ordered, 0, 0.0, half)
    {
      ScanTurn(ordered, k, cumulative, half);
      cumulative := cumulative + ordered[k].weight;
      if cumulative >= half {
        return ordered[k].value;
      }
    }
    r := ordered[|ordered| - 1].value;
  }

  /** Median, dispersion and count of one cell. */
  method AggregateCell(entries: seq<Entry>) returns (median: int, dispersion: int, count: nat)
    requires entries != []
    ensures median == WeightedMedian(entries) && count == |entries|
    ensures dispersion == WeightedMedian(Deviations(entries, median))
  {
    median := FindWeightedMedian(entries);
    dispersion := FindWeightedMedian(Deviations(entries, median));
    count := |entries|;
  }

  // -- weight of the entries whose value satisfies a predicate --------------------

  function Weight(s: seq<Entry>, p: int -> bool): real {
    if s == [] then 0.0 else (if p(s[0].value) then s[0].weight else 0.0) + Weight(s[1..], p)
  }

  function UpTo(m: int): int -> bool {
    v => v <= m
  }

  function Under(m: int): int -> bool {
    v => v < m
  }

  function Between(lo: int, hi: int): int -> bool {
    v => lo <= v <= hi
  }

  function Near(m: int, d: int): int -> bool {
    v => Distance(v, m) <= d
  }

  predicate NonNegative(s: seq<Entry>) {
    forall i | 0 <= i < |s| :: s[i].weight >= 0.0
  }

  lemma {:induction false} WeightAppend(a: seq<Entry>, b: seq<Entry>, p: int -> bool)
    ensures Weight(a + b, p) == Weight(a, p) + Weight(b, p)
  {
    if a == [] {
      assert a + b == b;
    } else {
      assert (a + b)[1..] == a[1..] + b;
      WeightAppend(a[1..], b, p);
    }
  }

  lemma {:induction false} TotalAppend(a: seq<Entry>, b: seq<Entry>)
    ensures Total(a + b) == Total(a) + Total(b)
  {
    if a == [] {
      assert a + b == b;
    } else {
      assert (a + b)[1..] == a[1..] + b;
      TotalAppend(a[1..], b);
    }
  }

  lemma {:induction false} WeightBounds(s: seq<Entry>, p: int -> bool)
    requires NonNegative(s)
    ensures 0.0 <= Weight(s, p) <= Total(s)
    ensures (forall i | 0 <= i < |s| :: p(s[i].value)) ==> Weight(s, p) == Total(s)
    ensures (forall i | 0 <= i < |s| :: !p(s[i].value)) ==> Weight(s, p) == 0.0
  {
    if s != [] {
      WeightBounds(s[1..], p);
      if forall i | 0 <= i < |s| :: p(s[i].value) {
        assert forall i | 0 <= i < |s[1..]| :: s[1..][i] == s[i + 1];
      }
    }
  }

  /** Predicates no value satisfies together weigh together at most the total. */
  lemma {:induction false} WeightDisjoint(s: seq<Entry>, p: int -> bool, q: int -> bool)
    requires NonNegative(s) && forall v :: !(p(v) && q(v))
    ensures Weight(s, p) + Weight(s, q) <= Total(s)
  {
    if s != [] {
      WeightDisjoint(s[1..], p, q);
    }
  }

  lemma {:induction false} WeightWithin(s: seq<Entry>, p: int -> bool, q: int -> bool)
    requires NonNegative(s) && forall v :: p(v) ==> q(v)
    ensures Weight(s, p) <= Weight(s, q)
  {
    if s != [] {
      WeightWithin(s[1..], p, q);
    }
  }

  lemma WeightRemove(s: seq<Entry>, i: nat, p: int -> bool)
    requires i < |s|
    ensures Weight(s, p) == (if p(s[i].value) then s[i].weight else 0.0) + Weight(s[..i] + s[i + 1..], p)
    ensures Total(s) == s[i].weight + Total(s[..i] + s[i + 1..])
  {
    var front, back := s[..i], s[i..];
    assert s == front + back && back[1..] == s[i + 1..];
    WeightAppend(front, back, p);
    WeightAppend(front, s[i + 1..], p);
    TotalAppend(front, back);
    TotalAppend(front, s[i + 1..]);
  }

  lemma {:induction false} SamePermutation(a: seq<Entry>, b: seq<Entry>, p: int -> bool)
    requires multiset(a) == multiset(b)
    ensures Weight(a, p) == Weight(b, p) && Total(a) == Total(b)
    decreases |a|
  {
    if a == [] {
      assert |multiset(b)| == |b|;
    } else {
      var i := MatchHead(a, b);
      SamePermutation(a[1..], b[..i] + b[i + 1..], p);
      WeightRemove(b, i, p);
    }
  }

  lemma OrderFacts()
    ensures TotalPreorder(InOrder) && forall x, y :: InOrder(x, y) && InOrder(y, x) ==> x == y
  {
  }

  // -- what the median is -----------------------------------------------------------

  /** Half of the weight or more lies at or below `m`, and less than half strictly below it. */
  ghost predicate Halves(s: seq<Entry>, m: int) {
    2.0 * Weight(s, Under(m)) < Total(s) <= 2.0 * Weight(s, UpTo(m))
  }

  predicate Submitted(s: seq<Entry>, m: int) {
    exists i | 0 <= i < |s| :: s[i].value == m
  }

  lemma UnderHere(ordered: seq<Entry>, k: nat, m: int)
    requires k < |ordered| && NonNegative(ordered) && forall i | k <= i < |ordered| :: ordered[i].value >= m
    ensures Weight(ordered, Under(m)) <= Total(ordered[..k])
  {
    var front, back := ordered[..k], ordered[k..];
    assert ordered == front + back;
    WeightAppend(front, back, Under(m));
    WeightBounds(front, Under(m));
    WeightBounds(back, Under(m));
  }

  lemma UpToHere(ordered: seq<Entry>, k: nat, m: int)
    requires k <= |ordered| && NonNegative(ordered) && forall i | 0 <= i < k :: ordered[i].value <= m
    ensures Weight(ordered, UpTo(m)) >= Total(ordered[..k])
  {
    var front, back := ordered[..k], ordered[k..];
    assert ordered == front + back;
    WeightAppend(front, back, UpTo(m));
    WeightBounds(front, UpTo(m));
    WeightBounds(back, UpTo(m));
  }

  lemma TotalNext(ordered: seq<Entry>, k: nat)
    requires k < |ordered|
    ensures Total(ordered[..k + 1]) == Total(ordered[..k]) + ordered[k].weight
  {
    assert ordered[..k + 1] == ordered[..k] + [ordered[k]];
    TotalAppend(ordered[..k], [ordered[k]]);
  }

  lemma StopsHere(ordered: seq<Entry>, k: nat)
    requires k < |ordered| && NonNegative(ordered) && Sorted(ordered, InOrder)
    requires 2.0 * Total(ordered[..k]) < Total(ordered) <= 2.0 * Total(ordered[..k + 1])
    ensures Halves(ordered, ordered[k].value)
  {
    var m := ordered[k].value;
    forall i | 0 <= i < k + 1 ensures ordered[i].value <= m {
      assert i == k || InOrder(ordered[i], ordered[k]);
    }
    forall i | k <= i < |ordered| ensures ordered[i].value >= m {
      assert i == k || InOrder(ordered[k], ordered[i]);
    }
    UnderHere(ordered, k, m);
    UpToHere(ordered, k + 1, m);
  }

  lemma {:induction false} ScanHalves(ordered: seq<Entry>, k: nat, cumulative: real, half: real)
    requires k <= |ordered| && ordered != [] && NonNegative(ordered) && Sorted(ordered, InOrder)
    requires cumulative == Total(ordered[..k]) && half == Total(ordered) / 2.0 && cumulative < half
    ensures Halves(ordered, Scan(ordered, k, cumulative, half))
        && Submitted(ordered, Scan(ordered, k, cumulative, half))
    decreases |ordered| - k
  {
    if k == |ordered| {
      assert ordered[..k] == ordered;
      assert Total(ordered) / 2.0 > Total(ordered);
      WeightBounds(ordered, UpTo(0));
    } else {
      TotalNext(ordered, k);
      if cumulative + ordered[k].weight >= half {
        StopsHere(ordered, k);
      } else {
        ScanHalves(ordered, k + 1, cumulative + ordered[k].weight, half);
      }
    }
  }

  lemma HalvesUnique(values: seq<Entry>, m: int, n: int)
    requires NonNegative(values) && Halves(values, m) && Halves(values, n)
    ensures m == n
  {
    if n < m {
      WeightWithin(values, UpTo(n), Under(m));
    } else if n > m {
      WeightWithin(values, UpTo(m), Under(n));
    }
  }

  lemma SameNonNegative(a: seq<Entry>, b: seq<Entry>)
    requires multiset(a) == multiset(b) && NonNegative(a)
    ensures NonNegative(b)
  {
    SameElements(a, b);
    forall i | 0 <= i < |b| ensures b[i].weight >= 0.0 {
      assert b[i] in a;
    }
  }

  /** The median is a submitted value that halves the weight. */
  lemma MedianHalves(values: seq<Entry>)
    requires values != [] && NonNegative(values) && Total(values) > 0.0
    ensures Halves(values, WeightedMedian(values)) && Submitted(values, WeightedMedian(values))
  {
    var ordered := Sort(values, InOrder);
    SortedInOrder(values);
    SameNonNegative(values, ordered);
    SamePermutation(ordered, values, UpTo(0));
    MedianOfSorted(ordered);
    HalvesInAnyOrder(ordered, values, MedianOf(ordered));
  }

  lemma SortedInOrder(values: seq<Entry>)
    ensures Sorted(Sort(values, InOrder), InOrder)
  {
    OrderFacts();
    SortSorted(values, InOrder);
  }

  lemma MedianOfSorted(ordered: seq<Entry>)
    requires ordered != [] && NonNegative(ordered) && Sorted(ordered, InOrder) && Total(ordered) > 0.0
    ensures Halves(ordered, MedianOf(ordered)) && Submitted(ordered, MedianOf(ordered))
  {
    ScanHalves(ordered, 0, 0.0, Total(ordered) / 2.0);
  }

  lemma HalvesInAnyOrder(a: seq<Entry>, b: seq<Entry>, m: int)
    requires multiset(a) == multiset(b) && Halves(a, m) && Submitted(a, m)
    ensures Halves(b, m) && Submitted(b, m)
  {
    SamePermutation(a, b, UpTo(m));
    SamePermutation(a, b, Under(m));
    SameElements(a, b);
    var i :| 0 <= i < |a| && a[i].value == m;
    assert a[i] in b;
  }

  /** And it is the only value that does. */
  lemma MedianExactly(values: seq<Entry>, m: int)
    requires values != [] && NonNegative(values) && Total(values) > 0.0
    ensures Halves(values, m) <==> m == WeightedMedian(values)
  {
    MedianHalves(values);
    if Halves(values, m) {
      HalvesUnique(values, m, WeightedMedian(values));
    }
  }

  /** The order of the entries does not matter, whatever their weights. */
  lemma MedianIgnoresOrder(a: seq<Entry>, b: seq<Entry>)
    requires a != [] && b != [] && multiset(a) == multiset(b)
    ensures WeightedMedian(a) == WeightedMedian(b)
  {
    OrderFacts();
    SortSorted(a, InOrder);
    SortSorted(b, InOrder);
    SortedUnique(Sort(a, InOrder), Sort(b, InOrder), InOrder);
  }

  /** A majority of the weight inside a range keeps the median inside it, wherever the rest is placed. */
  lemma MajorityHoldsMedian(values: seq<Entry>, lo: int, hi: int)
    requires values != [] && NonNegative(values) && 2.0 * Weight(values, Between(lo, hi)) > Total(values)
    ensures lo <= WeightedMedian(values) <= hi
  {
    WeightBounds(values, Between(lo, hi));
    MedianHalves(values);
    var m := WeightedMedian(values);
    if m < lo {
      WeightDisjoint(values, Between(lo, hi), UpTo(m));
    } else if m > hi {
      WeightWithin(values, Between(lo, hi), Under(m));
    }
  }

  // -- it minimises the weighted absolute deviation ---------------------------------------

  function Gap(a: real, b: real): real {
    if a <= b then b - a else a - b
  }

  function Deviation(e: Entry, x: real): real {
    e.weight * Gap(e.value as real, x)
  }

  function Spread(s: seq<Entry>, x: real): real {
    if s == [] then 0.0 else Deviation(s[0], x) + Spread(s[1..], x)
  }

  lemma Farther(w: real, near: real, far: real, d: real)
    requires w >= 0.0 && far - near >= d
    ensures w * far - w * near >= w * d
  {
    var gap := far - near - d;
    assert w * gap >= 0.0;
    assert w * gap == w * far - w * near - w * d;
  }

  function Push(w: real, isFar: bool, d: real): real {
    if isFar then w * d else -(w * d)
  }

  /** The move `d`, weighed positively on the far side and negatively on the near one. */
  function Moved(s: seq<Entry>, far: int -> bool, d: real): real {
    if s == [] then 0.0 else Push(s[0].weight, far(s[0].value), d) + Moved(s[1..], far, d)
  }

  lemma PushCosts(isFar: bool, w: real, dn: real, df: real, d: real)
    requires w >= 0.0 && df - dn >= (if isFar then d else -d)
    ensures w * df - w * dn >= Push(w, isFar, d)
  {
    if isFar {
      Farther(w, dn, df, d);
    } else {
      Farther(w, dn, df, -d);
      assert w * -d == -(w * d);
    }
  }

  lemma EntryCosts(e: Entry, m: real, x: real, isFar: bool, d: real)
    requires e.weight >= 0.0 && d == Gap(x, m)
    requires isFar ==> Gap(e.value as real, x) == Gap(e.value as real, m) + d
    ensures Deviation(e, x) - Deviation(e, m) >= Push(e.weight, isFar, d)
  {
    PushCosts(isFar, e.weight, Gap(e.value as real, m), Gap(e.value as real, x), d);
  }

  lemma {:induction false} MovingCosts(s: seq<Entry>, m: real, x: real, far: int -> bool, d: real)
    requires NonNegative(s) && d == Gap(x, m)
    requires forall v :: far(v) ==> Gap(v as real, x) == Gap(v as real, m) + d
    ensures Spread(s, x) - Spread(s, m) >= Moved(s, far, d)
  {
    if s != [] {
      MovingCosts(s[1..], m, x, far, d);
      EntryCosts(s[0], m, x, far(s[0].value), d);
      AddUp(Spread(s, x), Spread(s, m), Moved(s, far, d), Deviation(s[0], x), Deviation(s[0], m),
            Push(s[0].weight, far(s[0].value), d), Spread(s[1..], x), Spread(s[1..], m), Moved(s[1..], far, d));
    }
  }

  lemma AddUp(sx: real, sm: real, mv: real, ex: real, em: real, push: real, rx: real, rm: real, rest: real)
    requires sx == ex + rx && sm == em + rm && mv == push + rest
    requires ex - em >= push && rx - rm >= rest
    ensures sx - sm >= mv
  {
  }

  lemma Signed(isFar: bool, w: real, d: real, a: real, b: real)
    ensures Push(w, isFar, d) + (a - b) * d == (if isFar then (w + a) - b else a - (w + b)) * d
  {
    var gain := a - b;
    assert (w + gain) * d == w * d + gain * d;
    assert (gain - w) * d == gain * d - w * d;
    assert (w + a) - b == w + gain && a - (w + b) == gain - w;
  }

  lemma {:induction false} MovedInAll(s: seq<Entry>, far: int -> bool, near: int -> bool, d: real)
    requires forall v :: far(v) <==> !near(v)
    ensures Moved(s, far, d) == (Weight(s, far) - Weight(s, near)) * d
  {
    if s != [] {
      MovedInAll(s[1..], far, near, d);
      Signed(far(s[0].value), s[0].weight, d, Weight(s[1..], far), Weight(s[1..], near));
    }
  }

  lemma {:induction false} WeightComplement(s: seq<Entry>, p: int -> bool, q: int -> bool)
    requires forall v :: p(v) <==> !q(v)
    ensures Weight(s, p) + Weight(s, q) == Total(s)
  {
    if s != [] {
      WeightComplement(s[1..], p, q);
    }
  }

  /** No other centre, whole or not, has a smaller total weighted absolute deviation. */
  lemma MedianMinimisesSpread(values: seq<Entry>, x: real)
    requires values != [] && NonNegative(values) && Total(values) > 0.0
    ensures Spread(values, WeightedMedian(values) as real) <= Spread(values, x)
  {
    MedianHalves(values);
    HalvingMinimises(values, WeightedMedian(values), x);
  }

  lemma HalvingMinimises(values: seq<Entry>, m: int, x: real)
    requires NonNegative(values) && Halves(values, m)
    ensures Spread(values, m as real) <= Spread(values, x)
  {
    if x >= m as real {
      FarSideHeavier(values, m, x, UpTo(m), v => v > m);
    } else {
      FarSideHeavier(values, m, x, v => v >= m, Under(m));
    }
  }

  lemma FarSideHeavier(values: seq<Entry>, m: int, x: real, far: int -> bool, near: int -> bool)
    requires NonNegative(values) && Halves(values, m)
    requires forall v :: far(v) <==> !near(v)
    requires (x >= m as real && far == UpTo(m)) || (x <= m as real && near == Under(m))
    ensures Spread(values, m as real) <= Spread(values, x)
  {
    var d := Gap(x, m as real);
    forall v | far(v) ensures Gap(v as real, x) == Gap(v as real, m as real) + d {
    }
    MovingCosts(values, m as real, x, far, d);
    HeavierSide(values, m, far, near, d);
  }

  lemma HeavierSide(values: seq<Entry>, m: int, far: int -> bool, near: int -> bool, d: real)
    requires Halves(values, m) && d >= 0.0 && forall v :: far(v) <==> !near(v)
    requires far == UpTo(m) || near == Under(m)
    ensures Moved(values, far, d) >= 0.0
  {
    WeightComplement(values, far, near);
    MovedInAll(values, far, near, d);
    ProductNotNegative(Weight(values, far) - Weight(values, near), d);
  }

  // -- the dispersion band ------------------------------------------------------------------

  lemma {:induction false} DeviationWeights(values: seq<Entry>, m: int, d: int)
    ensures Weight(Deviations(values, m), UpTo(d)) == Weight(values, Near(m, d))
    ensures Weight(Deviations(values, m), Under(d)) == Weight(values, Near(m, d - 1))
    ensures Total(Deviations(values, m)) == Total(values)
  {
    if values != [] {
      DeviationWeights(values[1..], m, d);
      assert Deviations(values, m)[1..] == Deviations(values[1..], m);
    }
  }

  /** At least half the weight lies within one dispersion `d` of the centre, the median above all, and less than
      half strictly closer. */
  lemma HalfWithinDispersion(values: seq<Entry>, m: int, deviations: seq<Entry>, d: int)
    requires values != [] && NonNegative(values) && Total(values) > 0.0
    requires deviations == Deviations(values, m) && d == WeightedMedian(deviations)
    ensures 2.0 * Weight(values, Near(m, d - 1)) < Total(values) <= 2.0 * Weight(values, Near(m, d))
  {
    DeviationTotals(values, deviations, m);
    MedianHalves(deviations);
    DispersionAt(values, m, d);
  }

  lemma DeviationTotals(values: seq<Entry>, deviations: seq<Entry>, m: int)
    requires NonNegative(values) && deviations == Deviations(values, m)
    ensures NonNegative(deviations) && Total(deviations) == Total(values)
  {
    DeviationWeights(values, m, 0);
  }

  lemma DispersionAt(values: seq<Entry>, m: int, d: int)
    requires Halves(Deviations(values, m), d)
    ensures 2.0 * Weight(values, Near(m, d - 1)) < Total(values) <= 2.0 * Weight(values, Near(m, d))
  {
    DeviationWeights(values, m, d);
  }

  /** Floored weights are all positive, so a cell with any submission never falls back to the unweighted median. */
  lemma {:induction false} FlooredCellHasWeight(values: seq<Entry>, blends: map<string, real>, hotkeys: seq<string>)
    requires |hotkeys| == |values|
    requires forall i | 0 <= i < |values| :: values[i].weight == ConsensusWeight(blends, hotkeys[i])
    ensures NonNegative(values) && Total(values) >= MIN_CONSENSUS_WEIGHT * |values| as real
  {
    if values != [] {
      FlooredCellHasWeight(values[1..], blends, hotkeys[1..]);
      assert forall i | 0 <= i < |values| :: values[i].weight >= MIN_CONSENSUS_WEIGHT;
    }
  }

  // -- entries without weight ------------------------------------------------------------

  /** The same values, each of weight one. */
  function Equally(s: seq<Entry>): (r: seq<Entry>)
    ensures |r| == |s| && forall i | 0 <= i < |r| :: r[i] == Entry(s[i].value, 1.0)
  {
    seq(|s|, i requires 0 <= i < |s| => Entry(s[i].value, 1.0))
  }

  lemma {:induction false} EquallyTotal(s: seq<Entry>)
    ensures Total(Equally(s)) == |s| as real
  {
    if s != [] {
      EquallyTotal(s[1..]);
      assert Equally(s)[1..] == Equally(s[1..]);
    }
  }

  lemma {:induction false} EquallyPermutation(a: seq<Entry>, b: seq<Entry>, p: int -> bool)
    requires multiset(a) == multiset(b)
    ensures Weight(Equally(a), p) == Weight(Equally(b), p)
    decreases |a|
  {
    if a == [] {
      assert |multiset(b)| == |b|;
    } else {
      var i := MatchHead(a, b);
      EquallyPermutation(a[1..], b[..i] + b[i + 1..], p);
      WeightRemove(Equally(b), i, p);
      assert Equally(b[..i] + b[i + 1..]) == Equally(b)[..i] + Equally(b)[i + 1..];
      assert Equally(a)[1..] == Equally(a[1..]);
    }
  }

  lemma MiddleHalves(ordered: seq<Entry>, k: nat)
    requires ordered != [] && Sorted(ordered, InOrder) && k == (|ordered| - 1) / 2
    ensures Halves(Equally(ordered), ordered[k].value)
  {
    var u, m := Equally(ordered), ordered[k].value;
    forall i | 0 <= i < k + 1 ensures u[i].value <= m {
      assert i == k || InOrder(ordered[i], ordered[k]);
    }
    forall i | k <= i < |u| ensures u[i].value >= m {
      assert i == k || InOrder(ordered[k], ordered[i]);
    }
    UnderHere(u, k, m);
    UpToHere(u, k + 1, m);
    EquallyTotal(ordered);
    EquallyTotal(ordered[..k]);
    EquallyTotal(ordered[..k + 1]);
    assert u[..k] == Equally(ordered[..k]) && u[..k + 1] == Equally(ordered[..k + 1]);
  }

  lemma SameMedian(a: seq<Entry>, b: seq<Entry>, k: nat)
    requires multiset(a) == multiset(b) && k < |a| && Halves(Equally(a), a[k].value)
    ensures Halves(Equally(b), a[k].value) && Submitted(b, a[k].value)
  {
    EquallyPermutation(a, b, Under(a[k].value));
    EquallyPermutation(a, b, UpTo(a[k].value));
    EquallyTotal(a);
    EquallyTotal(b);
    SameElements(a, b);
    assert a[k] in b;
  }

  lemma FallbackValue(values: seq<Entry>)
    requires values != [] && Total(values) <= 0.0
    ensures WeightedMedian(values) == Sort(values, InOrder)[(|values| - 1) / 2].value
  {
    SamePermutation(Sort(values, InOrder), values, UpTo(0));
  }

  /** Where the entries have no weight in total, the answer is the value that halves them counted equally. */
  lemma FallbackHalvesEqually(values: seq<Entry>)
    requires values != [] && Total(values) <= 0.0
    ensures Halves(Equally(values), WeightedMedian(values)) && Submitted(values, WeightedMedian(values))
  {
    OrderFacts();
    SortSorted(values, InOrder);
    MiddleHalves(Sort(values, InOrder), (|values| - 1) / 2);
    SameMedian(Sort(values, InOrder), values, (|values| - 1) / 2);
    FallbackValue(values);
  }
}
