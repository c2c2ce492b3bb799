/** What the chain's limit does to a vector: one level cuts it, and the level is the limit's part of what is left. */
module WeightCap {
  import opened Wrappers
  import opened Sums
  import opened Sorting
  import opened WeightProcessing
  import opened WeightRounding
  import opened ChainWeights

  // -- the shares that stay under the limit ----------------------------------

  /** Levelled at its `i`-th share, the vector keeps that share under the limit. */
  ghost predicate StaysUnder(share: real, more: real, sum: real, limit: real) {
    share < limit * (more * share + sum + EPSILON)
  }

  ghost predicate StaysUnderAt(e: seq<real>, limit: real, i: nat)
    requires i < |e|
  {
    StaysUnder(e[i], (|e| - i - 1) as real, Sum(e[..i + 1]), limit)
  }

  lemma QuotientUnder(share: real, rest: real, sum: real, limit: real)
    requires share >= 0.0 && rest >= 0.0 && sum >= 0.0
    ensures share / (rest + sum + EPSILON) < limit <==> share < limit * (rest + sum + EPSILON)
  {
    var whole := rest + sum + EPSILON;
    var q := share / whole;
    assert q * whole == share;
    if q < limit {
      LessTimes(q, limit, whole);
    } else {
      ProductInOrder(whole, limit, q);
    }
  }

  lemma LessTimes(a: real, b: real, k: real)
    requires a < b && k > 0.0
    ensures a * k < b * k
  {
  }

  /** A greater share that stays under has every smaller one stay under. */
  lemma SmallerStaysUnder(a: real, b: real, more: real, sum: real, limit: real)
    requires 0.0 <= a <= b && sum >= 0.0 && limit > 0.0
    requires StaysUnder(b, more - 1.0, sum + b, limit)
    ensures StaysUnder(a, more, sum, limit)
  {
    var k := sum + EPSILON;
    assert (more - 1.0) * b + (sum + b) + EPSILON == more * b + k;
    var slope := 1.0 - limit * more;
    assert limit * (more * b + k) == b - b * slope + limit * k;
    assert limit * (more * a + k) == a - a * slope + limit * k;
    assert b * slope < limit * k;
    if a * slope >= limit * k {
      PositiveProduct(limit, k);
      SlopeIsPositive(a, slope, limit * k);
      ProductInOrder(slope, a, b);
    }
  }

  lemma PositiveProduct(a: real, b: real)
    requires a > 0.0 && b > 0.0
    ensures a * b > 0.0
  {
  }

  lemma SlopeIsPositive(a: real, slope: real, bound: real)
    requires a >= 0.0 && a * slope >= bound > 0.0
    ensures slope > 0.0
  {
  }

  /** Shares, smallest first, adding up to one. */
  ghost predicate SharesInOrder(e: seq<real>) {
    e != [] && Sum(e) == 1.0 && Sorted(e, Ascending) && forall k | 0 <= k < |e| :: e[k] >= 0.0
  }

  lemma InOrder(e: seq<real>, i: nat, j: nat)
    requires Sorted(e, Ascending) && i <= j < |e|
    ensures e[i] <= e[j]
  {
    assert i < j ==> Ascending(e[i], e[j]);
  }

  lemma SumOfNext(e: seq<real>, i: nat)
    requires i < |e|
    ensures Sum(e[..i + 1]) == Sum(e[..i]) + e[i]
  {
    assert e[..i + 1] == e[..i] + [e[i]];
    SumAppend(e[..i], [e[i]]);
    assert Sum([e[i]]) == e[i];
  }

  lemma EarlierStaysUnder(e: seq<real>, limit: real, i: nat)
    requires SharesInOrder(e) && limit > 0.0 && i + 1 < |e| && StaysUnderAt(e, limit, i + 1)
    ensures StaysUnderAt(e, limit, i)
  {
    InOrder(e, i, i + 1);
    SumOfNext(e, i + 1);
    SumNonNegative(e[..i + 1]);
    SmallerStaysUnder(e[i], e[i + 1], (|e| - i - 1) as real, Sum(e[..i + 1]), limit);
  }

  lemma TestIsStaysUnder(e: seq<real>, limit: real, i: nat)
    requires SharesInOrder(e) && i < |e|
    ensures Sum(e[..i + 1]) >= 0.0
    ensures e[i] / ((|e| - i - 1) as real * e[i] + Sum(e[..i + 1]) + EPSILON) < limit <==> StaysUnderAt(e, limit, i)
  {
    SumNonNegative(e[..i + 1]);
    ProductNotNegative((|e| - i - 1) as real, e[i]);
    QuotientUnder(e[i], (|e| - i - 1) as real * e[i], Sum(e[..i + 1]), limit);
  }

  /** The count of shares under the limit is how many of the smallest there are. */
  lemma {:induction false} UnderAreFirst(e: seq<real>, limit: real, i: nat)
    requires SharesInOrder(e) && limit > 0.0 && i <= |e|
    ensures var n := i + UnderLimit(e, limit, i);
      && n <= |e|
      && (n > i ==> StaysUnderAt(e, limit, n - 1))
      && (n < |e| ==> !StaysUnderAt(e, limit, n))
    decreases |e| - i
  {
    if i < |e| {
      UnderAreFirst(e, limit, i + 1);
      TestIsStaysUnder(e, limit, i);
      if !StaysUnderAt(e, limit, i) {
        NoneLaterUnder(e, limit, i);
      }
    }
  }

  lemma {:induction false} NoneLaterUnder(e: seq<real>, limit: real, i: nat)
    requires SharesInOrder(e) && limit > 0.0 && i < |e| && !StaysUnderAt(e, limit, i)
    ensures UnderLimit(e, limit, i) == 0
    decreases |e| - i
  {
    TestIsStaysUnder(e, limit, i);
    if i + 1 < |e| {
      if StaysUnderAt(e, limit, i + 1) {
        EarlierStaysUnder(e, limit, i);
      }
      NoneLaterUnder(e, limit, i + 1);
    }
  }

  // -- the level ---------------------------------------------------------------

  /** The level solves: the limit's part of the small shares' sum and of itself for each great one, less EPSILON. */
  ghost predicate SolvesLevel(level: real, limit: real, great: real, sum: real) {
    level * Room(great, limit) == limit * sum - EPSILON
  }

  ghost predicate GreatestSmall(share: real, great: real, sum: real, limit: real) {
    share * (1.0 - limit * great) < limit * (sum + EPSILON)
  }

  ghost predicate LeastGreat(share: real, great: real, sum: real, limit: real) {
    share * (1.0 - limit * great) >= limit * (sum + EPSILON)
  }

  ghost predicate RoomLeft(great: real, limit: real) {
    Room(great, limit) > 0.0
  }

  /** What is known of the count: the greatest small share stays under, the least great one does not. */
  ghost predicate CountFits(e: seq<real>, limit: real, n: nat) {
    && 0 < n <= |e| && RoomLeft((|e| - n) as real, limit)
    && GreatestSmall(e[n - 1], (|e| - n) as real, Sum(e[..n]), limit)
    && (n < |e| ==> LeastGreat(e[n], (|e| - n) as real, Sum(e[..n]), limit))
  }

  /** A uniform vector would stay under the limit. */
  ghost predicate Exceeds(n: real, limit: real) {
    n * limit > 1.0
  }

  lemma FirstReal(x: real, n: real, limit: real)
    requires x >= 0.0 && limit > 0.0 && Exceeds(n, limit)
    ensures StaysUnder(x, n - 1.0, x, limit)
  {
    assert (n - 1.0) * x + x == n * x;
    ProductInOrder(x, 1.0, n * limit);
    assert limit * (n * x + EPSILON) == x * (n * limit) + limit * EPSILON;
    PositiveProduct(limit, EPSILON);
  }

  lemma FirstStaysUnder(e: seq<real>, limit: real)
    requires SharesInOrder(e) && limit > 0.0 && Exceeds(|e| as real, limit)
    ensures StaysUnderAt(e, limit, 0)
  {
    SumOfNext(e, 0);
    assert e[0] >= 0.0;
    FirstReal(e[0], |e| as real, limit);
    assert e[..0] == [];
  }

  lemma SmallShare(share: real, great: real, sum: real, limit: real)
    requires StaysUnder(share, great, sum, limit)
    ensures GreatestSmall(share, great, sum, limit)
  {
    assert limit * (great * share + sum + EPSILON) == share * (limit * great) + limit * (sum + EPSILON);
  }

  lemma GreatShare(share: real, great: real, sum: real, limit: real)
    requires !StaysUnder(share, great - 1.0, sum + share, limit) && share >= 0.0 && sum >= 0.0 && limit > 0.0
    ensures LeastGreat(share, great, sum, limit) && RoomLeft(great, limit)
  {
    assert (great - 1.0) * share + (sum + share) + EPSILON == great * share + (sum + EPSILON);
    assert limit * (great * share + (sum + EPSILON)) == share * (limit * great) + limit * (sum + EPSILON);
    PositiveProduct(limit, sum + EPSILON);
    SlopeIsPositive(share, 1.0 - limit * great, limit * (sum + EPSILON));
  }

  lemma LastSmall(e: seq<real>, limit: real, n: nat)
    requires 0 < n <= |e| && StaysUnderAt(e, limit, n - 1)
    ensures GreatestSmall(e[n - 1], (|e| - n) as real, Sum(e[..n]), limit)
  {
    SmallShare(e[n - 1], (|e| - n) as real, Sum(e[..n]), limit);
  }

  lemma FirstGreat(e: seq<real>, limit: real, n: nat)
    requires SharesInOrder(e) && limit > 0.0 && n < |e| && !StaysUnderAt(e, limit, n)
    ensures LeastGreat(e[n], (|e| - n) as real, Sum(e[..n]), limit) && RoomLeft((|e| - n) as real, limit)
  {
    SumOfNext(e, n);
    SumNonNegative(e[..n]);
    GreatShare(e[n], (|e| - n) as real, Sum(e[..n]), limit);
  }

  lemma CountFitsLimit(e: seq<real>, limit: real)
    requires SharesInOrder(e) && limit > 0.0 && Exceeds(|e| as real, limit)
    ensures CountFits(e, limit, UnderLimit(e, limit, 0))
  {
    var n := UnderLimit(e, limit, 0);
    UnderAreFirst(e, limit, 0);
    FirstStaysUnder(e, limit);
    assert n > 0 && StaysUnderAt(e, limit, n - 1);
    LastSmall(e, limit, n);
    if n < |e| {
      FirstGreat(e, limit, n);
    }
  }

  lemma LevelBelowGreat(level: real, share: real, great: real, sum: real, limit: real)
    requires limit > 0.0 && RoomLeft(great, limit)
    requires SolvesLevel(level, limit, great, sum) && LeastGreat(share, great, sum, limit)
    ensures level < share
  {
    var room := 1.0 - limit * great;
    assert limit * (sum + EPSILON) == limit * sum + limit * EPSILON;
    PositiveProduct(limit, EPSILON);
    if level >= share {
      ProductInOrder(room, share, level);
    }
  }

  ghost predicate SmallGap(room: real, gap: real, limit: real) {
    room * gap < EPSILON + limit * EPSILON
  }

  lemma GapAboveLevel(level: real, share: real, great: real, sum: real, limit: real)
    requires SolvesLevel(level, limit, great, sum) && GreatestSmall(share, great, sum, limit)
    ensures SmallGap(1.0 - limit * great, share - level, limit)
  {
    assert limit * (sum + EPSILON) == limit * sum + limit * EPSILON;
  }

  /** `level` is at most the limit's part of what it leaves, up to EPSILON of it. */
  ghost predicate NotOver(level: real, limit: real, left: real) {
    level < limit * (left + EPSILON)
  }

  /** And no less, up to EPSILON. */
  ghost predicate NotUnder(level: real, limit: real, left: real) {
    level >= limit * left - EPSILON
  }

  /** The level leaves the shares under it, and itself for each other one. */
  ghost predicate Leaves(left: real, kept: real, cut: real, level: real) {
    left == kept + cut * level
  }

  /** `n` shares from `low` to `high` come to `sum`. */
  ghost predicate SumWithin(sum: real, n: real, low: real, high: real) {
    n * low <= sum <= n * high
  }

  ghost predicate ManyOver(limit: real, cut: real) {
    limit * cut >= 1.0
  }

  lemma ManyCut(level: real, limit: real, kept: real, cut: real, left: real)
    requires level > 0.0 && limit > 0.0 && kept >= 0.0 && ManyOver(limit, cut) && Leaves(left, kept, cut, level)
    ensures NotOver(level, limit, left)
  {
    ProductInOrder(level, 1.0, limit * cut);
    assert limit * (kept + cut * level + EPSILON) == limit * kept + level * (limit * cut) + limit * EPSILON;
    ProductNotNegative(limit, kept);
    PositiveProduct(limit, EPSILON);
  }

  lemma GapTimes(limit: real, between: real, room: real, gap: real)
    requires limit > 0.0 && between >= 0.0 && room > limit * between && (between > 0.0 ==> gap > 0.0)
    requires SmallGap(room, gap, limit)
    ensures limit * (between * gap) < EPSILON + limit * EPSILON
  {
    PositiveProduct(limit, EPSILON);
    if between > 0.0 {
      ProductInOrder(gap, limit * between, room);
      assert gap * (limit * between) == limit * (between * gap);
    }
  }

  /** The great shares and those between fit under the limit together. */
  ghost predicate FewOver(limit: real, great: real, between: real) {
    1.0 - limit * great > limit * between
  }

  lemma OverBound(level: real, limit: real, great: real, between: real, over: real, top: real)
    requires limit > 0.0 && between >= 0.0 && FewOver(limit, great, between)
    requires SmallGap(1.0 - limit * great, top - level, limit)
    requires SumWithin(over, between, level, top) && (between > 0.0 ==> top > level)
    ensures limit * (over - between * level) < EPSILON + limit * EPSILON
  {
    var gap := top - level;
    GapTimes(limit, between, 1.0 - limit * great, gap);
    assert between * gap == between * top - between * level;
    ProductInOrder(limit, over - between * level, between * gap);
  }

  lemma OverByLess(level: real, limit: real, left: real, over: real)
    requires level - limit * left == over - EPSILON && over < EPSILON + limit * EPSILON
    ensures NotOver(level, limit, left)
  {
    assert limit * (left + EPSILON) == limit * left + limit * EPSILON;
  }

  lemma LevelTimesRoom(level: real, limit: real, great: real, between: real, kept: real, over: real)
    requires SolvesLevel(level, limit, great, kept + over)
    ensures level - limit * (kept + (great + between) * level) == limit * (over - between * level) - EPSILON
  {
    assert level * (1.0 - limit * great) == level - limit * (great * level);
    assert limit * (kept + over) == limit * kept + limit * over;
    assert limit * (kept + (great + between) * level)
        == limit * kept + limit * (great * level) + limit * (between * level);
    assert limit * (over - between * level) == limit * over - limit * (between * level);
  }

  /** `kept` is what lies under the level, `over` what the `between` shares just over it come to, each at most `top`. */
  lemma FewCut(level: real, limit: real, great: real, between: real, kept: real, over: real, top: real, left: real)
    requires limit > 0.0 && between >= 0.0 && FewOver(limit, great, between)
    requires SolvesLevel(level, limit, great, kept + over) && GreatestSmall(top, great, kept + over, limit)
    requires SumWithin(over, between, level, top) && (between > 0.0 ==> top > level)
    requires Leaves(left, kept, great + between, level)
    ensures NotOver(level, limit, left)
  {
    GapAboveLevel(level, top, great, kept + over, limit);
    OverBound(level, limit, great, between, over, top);
    LevelTimesRoom(level, limit, great, between, kept, over);
    OverByLess(level, limit, left, limit * (over - between * level));
  }

  lemma LevelIsEnough(level: real, limit: real, great: real, between: real, kept: real, over: real)
    requires limit > 0.0 && SolvesLevel(level, limit, great, kept + over) && over >= between * level
    ensures NotUnder(level, limit, kept + (great + between) * level)
  {
    LevelTimesRoom(level, limit, great, between, kept, over);
    ProductNotNegative(limit, over - between * level);
  }

  // -- the vector cut at the level ------------------------------------------------

  /** The first `p` shares are at or under `level`, the rest over it. */
  ghost predicate SplitAt(e: seq<real>, level: real, p: nat) {
    p <= |e| && (forall k | 0 <= k < p :: e[k] <= level) && forall k | p <= k < |e| :: e[k] > level
  }

  lemma {:induction false} FindSplit(e: seq<real>, level: real) returns (p: nat)
    requires Sorted(e, Ascending)
    ensures SplitAt(e, level, p)
  {
    if e == [] || e[|e| - 1] <= level {
      p := |e|;
      forall k | 0 <= k < |e| ensures e[k] <= level {
        InOrder(e, k, |e| - 1);
      }
    } else {
      p := FindSplit(e[..|e| - 1], level);
      assert forall k | 0 <= k < |e| - 1 :: e[..|e| - 1][k] == e[k];
    }
  }

  lemma CutIsPrefix(e: seq<real>, level: real, p: nat)
    requires SplitAt(e, level, p)
    ensures CapAt(e, level) == e[..p] + seq(|e| - p, _ => level)
  {
  }

  lemma LeavesCut(kept: real, rest: real, cut: real, level: real)
    requires rest == level * cut
    ensures Leaves(kept + rest, kept, cut, level)
  {
  }

  lemma CutSum(e: seq<real>, level: real, p: nat)
    requires SplitAt(e, level, p)
    ensures Leaves(Sum(CapAt(e, level)), Sum(e[..p]), (|e| - p) as real, level)
  {
    var cut := seq(|e| - p, _ => level);
    CutIsPrefix(e, level, p);
    SumAppend(e[..p], cut);
    ConstantSum(cut, level);
    LeavesCut(Sum(e[..p]), Sum(cut), |cut| as real, level);
  }

  lemma {:induction false} SumBetween(s: seq<real>, low: real, high: real)
    requires forall k | 0 <= k < |s| :: low <= s[k] <= high
    ensures SumWithin(Sum(s), |s| as real, low, high)
  {
    if s != [] {
      SumBetween(s[1..], low, high);
      OneMore(|s|, low);
      OneMore(|s|, high);
    }
  }

  lemma OneMore(n: nat, x: real)
    requires n > 0
    ensures n as real * x == x + (n - 1) as real * x
  {
    assert n as real == 1.0 + (n - 1) as real;
  }

  lemma MiddleBetween(e: seq<real>, level: real, p: nat, n: nat)
    requires Sorted(e, Ascending) && SplitAt(e, level, p) && p <= n <= |e| && n > 0
    ensures Sum(e[..n]) == Sum(e[..p]) + Sum(e[p..n])
    ensures SumWithin(Sum(e[p..n]), (n - p) as real, level, e[n - 1])
  {
    assert e[..n] == e[..p] + e[p..n];
    SumAppend(e[..p], e[p..n]);
    forall k | 0 <= k < n - p ensures level <= e[p..n][k] <= e[n - 1] {
      InOrder(e, p + k, n - 1);
    }
    SumBetween(e[p..n], level, e[n - 1]);
    assert |e[p..n]| == n - p;
  }

  lemma LevelNotUnder(level: real, limit: real, great: real, between: real, kept: real, over: real, top: real,
                      left: real)
    requires limit > 0.0 && SolvesLevel(level, limit, great, kept + over) && SumWithin(over, between, level, top)
    requires Leaves(left, kept, great + between, level)
    ensures NotUnder(level, limit, left)
  {
    LevelIsEnough(level, limit, great, between, kept, over);
  }

  lemma FewOrMany(limit: real, great: real, between: real)
    ensures FewOver(limit, great, between) || ManyOver(limit, great + between)
  {
    assert limit * (great + between) == limit * great + limit * between;
  }

  lemma LevelNotOver(level: real, limit: real, great: real, between: real, kept: real, over: real, top: real,
                     left: real)
    requires level > 0.0 && kept >= 0.0 && limit > 0.0 && between >= 0.0
    requires SolvesLevel(level, limit, great, kept + over) && GreatestSmall(top, great, kept + over, limit)
    requires SumWithin(over, between, level, top) && (between > 0.0 ==> top > level)
    requires Leaves(left, kept, great + between, level)
    ensures NotOver(level, limit, left)
  {
    FewOrMany(limit, great, between);
    if FewOver(limit, great, between) {
      FewCut(level, limit, great, between, kept, over, top, left);
    } else {
      ManyCut(level, limit, kept, great + between, left);
    }
  }

  /** The level the count gives is the limit's part of what it leaves, up to EPSILON either way. */
  lemma LevelIsLimit(e: seq<real>, limit: real, n: nat, level: real)
    requires SharesInOrder(e) && limit > 0.0 && CountFits(e, limit, n)
    requires SolvesLevel(level, limit, (|e| - n) as real, Sum(e[..n]))
    ensures NotUnder(level, limit, Sum(CapAt(e, level)))
    ensures level > 0.0 ==> NotOver(level, limit, Sum(CapAt(e, level)))
  {
    var p := FindSplit(e, level);
    if n < |e| {
      LevelBelowGreat(level, e[n], (|e| - n) as real, Sum(e[..n]), limit);
    }
    assert p <= n;
    CutSum(e, level, p);
    MiddleBetween(e, level, p, n);
    SumNonNegative(e[..p]);
    assert (|e| - p) as real == (|e| - n) as real + (n - p) as real;
    var kept, over, left := Sum(e[..p]), Sum(e[p..n]), Sum(CapAt(e, level));
    LevelNotUnder(level, limit, (|e| - n) as real, (n - p) as real, kept, over, e[n - 1], left);
    if level > 0.0 {
      LevelNotOver(level, limit, (|e| - n) as real, (n - p) as real, kept, over, e[n - 1], left);
    }
  }

  // -- from the shares to the weights ---------------------------------------------

  lemma QuotientsInOrder(a: real, b: real, total: real)
    requires a <= b && total > 0.0
    ensures a / total <= b / total
  {
  }

  lemma SharesSorted(values: seq<real>, total: real)
    requires Sorted(values, Ascending) && total > 0.0
    ensures Sorted(DivideAll(values, total), Ascending)
  {
    forall i, j | 0 <= i < j < |values|
      ensures Ascending(DivideAll(values, total)[i], DivideAll(values, total)[j])
    {
      DividedIndex(values, total, i);
      DividedIndex(values, total, j);
      InOrder(values, i, j);
      QuotientsInOrder(values[i], values[j], total);
    }
  }

  lemma SharesOf(weights: seq<real>)
    requires (forall k | 0 <= k < |weights| :: weights[k] >= 0.0) && Sum(weights) > 0.0
    ensures SharesInOrder(DivideAll(Sort(weights, Ascending), Sum(weights)))
  {
    var values, total := Sort(weights, Ascending), Sum(weights);
    SumPermutation(values, weights);
    SameElements(values, weights);
    SortSorted(weights, Ascending);
    assert forall k | 0 <= k < |values| :: values[k] in weights;
    DividedByOwnSum(values, total);
    DividedSign(values, total);
    SharesSorted(values, total);
  }

  lemma {:induction false} CapPermutation(a: seq<real>, b: seq<real>, cut: real)
    requires multiset(a) == multiset(b)
    ensures Sum(CapAt(a, cut)) == Sum(CapAt(b, cut))
  {
    if a == [] {
      SameElements(a, b);
    } else {
      var i := MatchHead(a, b);
      CapPermutation(a[1..], b[..i] + b[i + 1..], cut);
      SumRemove(CapAt(b, cut), i);
      assert CapAt(b[..i] + b[i + 1..], cut) == CapAt(b, cut)[..i] + CapAt(b, cut)[i + 1..];
      assert CapAt(a, cut)[1..] == CapAt(a[1..], cut);
    }
  }

  lemma MinScales(x: real, share: real, level: real, total: real)
    requires total > 0.0 && share * total == x
    ensures Scales(if share < level then share else level, total, if x < level * total then x else level * total)
  {
    if share < level {
      LessTimes(share, level, total);
    } else {
      ProductInOrder(total, level, share);
    }
  }

  lemma {:induction false} CutScales(values: seq<real>, level: real, total: real)
    requires total > 0.0
    ensures Scales(Sum(CapAt(DivideAll(values, total), level)), total, Sum(CapAt(values, level * total)))
  {
    if values != [] {
      var shares, cut := DivideAll(values, total), level * total;
      CutScales(values[1..], level, total);
      Cancel(values[0], total);
      MinScales(values[0], shares[0], level, total);
      assert CapAt(shares, level)[1..] == CapAt(shares[1..], level);
      assert CapAt(values, cut)[1..] == CapAt(values[1..], cut);
      ScalesAdd(CapAt(shares, level)[0], CapAt(values, cut)[0], Sum(CapAt(shares[1..], level)),
                Sum(CapAt(values[1..], cut)), total, Sum(CapAt(shares, level)), Sum(CapAt(values, cut)));
    }
  }

  lemma UnitBySum(s: seq<real>)
    requires s != [] && Sum(s) != 0.0
    ensures NormalizeToUnit(s) == DivideAll(s, Sum(s))
  {
    DividedByOwnSum(s, Sum(s));
    NoCorrection(DivideAll(s, Sum(s)));
  }

  lemma ConstantShare(c: real, n: real, sum: real)
    requires c != 0.0 && n > 0.0 && sum == c * n
    ensures sum != 0.0 && c / sum == 1.0 / n
  {
    var q := c / sum;
    assert q * sum == c;
    assert q * (c * n) == c * (q * n);
    assert c * (q * n - 1.0) == 0.0;
    assert q * n == 1.0;
  }

  lemma {:induction false} ConstantDivided(s: seq<real>, c: real, sum: real, share: real)
    requires sum != 0.0 && c / sum == share && forall k | 0 <= k < |s| :: s[k] == c
    ensures forall k | 0 <= k < |s| :: DivideAll(s, sum)[k] == share
  {
    if s != [] {
      ConstantDivided(s[1..], c, sum, share);
    }
  }

  lemma AllTheShare(d: seq<real>, share: real)
    requires d != [] && share == 1.0 / |d| as real && forall k | 0 <= k < |d| :: d[k] == share
    ensures d == Uniform(|d|)
  {
  }

  lemma UnitOfConstant(s: seq<real>, c: real)
    requires s != [] && c < 0.0 && forall k | 0 <= k < |s| :: s[k] == c
    ensures NormalizeToUnit(s) == Uniform(|s|)
  {
    var sum, share := Sum(s), 1.0 / |s| as real;
    ConstantSum(s, c);
    ConstantShare(c, |s| as real, sum);
    ConstantDivided(s, c, sum, share);
    AllTheShare(DivideAll(s, sum), share);
    UnitBySum(s);
  }

  lemma CutLeavesSome(weights: seq<real>, cut: real)
    requires (forall k | 0 <= k < |weights| :: weights[k] >= 0.0) && Sum(weights) > 0.0 && cut > 0.0
    ensures Sum(CapAt(weights, cut)) > 0.0
  {
    SumNonNegative(CapAt(weights, cut));
    if forall k | 0 <= k < |weights| :: weights[k] <= 0.0 {
      SumScale(weights, weights, 0.0);
    }
    var k :| 0 <= k < |weights| && weights[k] > 0.0;
    assert CapAt(weights, cut)[k] > 0.0;
  }

  // -- the main result --------------------------------------------------------------

  /** The weights cut at one level and divided by what it leaves, the level being the limit's part of that up to EPSILON
      of the total. */
  ghost predicate CutAtLimit(weights: seq<real>, limit: real, cut: real, r: seq<real>) {
    var left := Sum(CapAt(weights, cut));
    cut > 0.0 && left > 0.0 && r == DivideAll(CapAt(weights, cut), left) && MeetsLimit(cut, limit, left, Sum(weights))
  }

  ghost predicate MeetsLimit(cut: real, limit: real, left: real, total: real) {
    limit * left - EPSILON * total <= cut < limit * (left + EPSILON * total)
  }

  ghost predicate Dust(kept: real, limit: real, total: real) {
    limit * kept <= EPSILON * total
  }

  /** So few weights that at the limit they would leave room hold all but dust. */
  ghost predicate AllButDust(weights: seq<real>, limit: real, few: nat) {
    && few <= |weights| && RoomLeft(few as real, limit)
    && Dust(Sum(Sort(weights, Ascending)[..|weights| - few]), limit, Sum(weights))
  }

  lemma CutoffSolves(sum: real, great: real, limit: real)
    requires RoomLeft(great, limit)
    ensures SolvesLevel(CutoffScale(sum, great, limit), limit, great, sum)
  {
    Cancel(limit * sum - EPSILON, Room(great, limit));
  }

  lemma Regroup(limit: real, left: real, total: real, kept: real)
    requires Scales(left, total, kept)
    ensures limit * left * total == limit * kept
  {
    assert limit * left * total == limit * (left * total);
  }

  lemma LevelToWeights(level: real, limit: real, left: real, total: real, cut: real, kept: real)
    requires total > 0.0 && Scales(level, total, cut) && Scales(left, total, kept)
    requires NotUnder(level, limit, left) && NotOver(level, limit, left)
    ensures MeetsLimit(cut, limit, kept, total)
  {
    Regroup(limit, left, total, kept);
    ProductInOrder(total, limit * left - EPSILON, level);
    LessTimes(level, limit * (left + EPSILON), total);
    assert total * (limit * left - EPSILON) == limit * left * total - EPSILON * total;
    assert limit * (left + EPSILON) * total == limit * left * total + limit * (EPSILON * total);
    assert limit * (kept + EPSILON * total) == limit * kept + limit * (EPSILON * total);
  }

  lemma {:induction false} DividedPrefix(s: seq<real>, total: real, n: nat)
    requires total != 0.0 && n <= |s|
    ensures DivideAll(s, total)[..n] == DivideAll(s[..n], total)
  {
    if n > 0 {
      DividedPrefix(s[1..], total, n - 1);
      assert s[..n][1..] == s[1..][..n - 1];
      assert DivideAll(s, total)[..n] == [s[0] / total] + DivideAll(s[1..], total)[..n - 1];
    }
  }

  lemma DustToWeights(level: real, great: real, limit: real, sum: real, total: real, kept: real)
    requires RoomLeft(great, limit) && SolvesLevel(level, limit, great, sum) && level <= 0.0 && total > 0.0
    requires Scales(sum, total, kept)
    ensures Dust(kept, limit, total)
  {
    ProductNotNegative(1.0 - limit * great, -level);
    ProductInOrder(total, limit * sum, EPSILON);
    assert total * (limit * sum) == limit * (sum * total);
  }

  /** The weights to cap: none negative, not all zero, and more of them than the limit needs. */
  ghost predicate ToCap(weights: seq<real>, limit: real) {
    && (forall k | 0 <= k < |weights| :: weights[k] >= 0.0) && Sum(weights) > 0.0 && limit > 0.0
    && Exceeds(|weights| as real, limit)
  }

  lemma CutUnfolds(weights: seq<real>, e: seq<real>, limit: real, total: real, n: nat)
    requires weights != [] && |weights| == |e| && forall k | 0 <= k < |e| :: e[k] >= 0.0
    requires n == UnderLimit(e, limit, 0) && 0 < n <= |e| && RoomLeft((|e| - n) as real, limit)
    ensures var capped := CapAt(weights, Cutoff(Sum(e[..n]), (|e| - n) as real, limit, total));
      CutWeights(weights, e, limit, total) == if Sum(capped) == 0.0 then Uniform(|capped|) else NormalizeToUnit(capped)
  {
    assert CumulativeSum(e)[n - 1] == Sum(e[..n]);
  }

  lemma ScalesPositive(level: real, total: real, cut: real)
    requires total > 0.0 && Scales(level, total, cut)
    ensures level > 0.0 <==> cut > 0.0
  {
  }

  lemma CutShared(weights: seq<real>, limit: real, level: real, cut: real, left: real)
    requires ToCap(weights, limit) && level > 0.0 && Scales(level, Sum(weights), cut)
    requires Scales(left, Sum(weights), Sum(CapAt(weights, cut))) && NotUnder(level, limit, left)
    requires NotOver(level, limit, left)
    ensures Sum(CapAt(weights, cut)) != 0.0
    ensures CutAtLimit(weights, limit, cut, NormalizeToUnit(CapAt(weights, cut)))
  {
    ScalesPositive(level, Sum(weights), cut);
    CutLeavesSome(weights, cut);
    UnitBySum(CapAt(weights, cut));
    LevelToWeights(level, limit, left, Sum(weights), cut, Sum(CapAt(weights, cut)));
  }

  lemma CutToNothing(weights: seq<real>, cut: real)
    requires weights != [] && cut <= 0.0 && forall k | 0 <= k < |weights| :: weights[k] >= 0.0
    ensures var capped := CapAt(weights, cut);
      (if Sum(capped) == 0.0 then Uniform(|capped|) else NormalizeToUnit(capped)) == Uniform(|weights|)
  {
    var capped := CapAt(weights, cut);
    if cut == 0.0 {
      ConstantSum(capped, 0.0);
    } else {
      UnitOfConstant(capped, cut);
    }
  }

  lemma PrefixScales(values: seq<real>, total: real, n: nat)
    requires total != 0.0 && n <= |values|
    ensures Scales(Sum(DivideAll(values, total)[..n]), total, Sum(values[..n]))
  {
    DividedPrefix(values, total, n);
    DividedSum(values[..n], total);
  }

  lemma LevelSumsAgree(values: seq<real>, weights: seq<real>, total: real, level: real, cut: real)
    requires total > 0.0 && Scales(level, total, cut) && multiset(values) == multiset(weights)
    ensures Scales(Sum(CapAt(DivideAll(values, total), level)), total, Sum(CapAt(weights, cut)))
  {
    CutScales(values, level, total);
    CapPermutation(values, weights, cut);
  }

  ghost predicate Capped(weights: seq<real>, limit: real, r: seq<real>) {
    || (exists cut: real :: CutAtLimit(weights, limit, cut, r))
    || (weights != [] && r == Uniform(|weights|) && exists few: nat :: AllButDust(weights, limit, few))
  }

  /** The sorted shares, how many stay under, and the level that gives. */
  ghost predicate Levelled(e: seq<real>, limit: real, n: nat, level: real) {
    && SharesInOrder(e) && limit > 0.0 && CountFits(e, limit, n)
    && SolvesLevel(level, limit, (|e| - n) as real, Sum(e[..n]))
  }

  lemma CutOrNot(weights: seq<real>, values: seq<real>, limit: real, n: nat, level: real, cut: real)
    requires ToCap(weights, limit) && multiset(values) == multiset(weights)
    requires Scales(level, Sum(weights), cut) && level > 0.0
    requires Levelled(DivideAll(values, Sum(weights)), limit, n, level)
    ensures Sum(CapAt(weights, cut)) != 0.0
    ensures CutAtLimit(weights, limit, cut, NormalizeToUnit(CapAt(weights, cut)))
  {
    LevelIsLimit(DivideAll(values, Sum(weights)), limit, n, level);
    LevelSumsAgree(values, weights, Sum(weights), level, cut);
    CutShared(weights, limit, level, cut, Sum(CapAt(DivideAll(values, Sum(weights)), level)));
  }

  lemma EndsInDust(values: seq<real>, total: real, limit: real, n: nat, level: real)
    requires total > 0.0 && level <= 0.0 && Levelled(DivideAll(values, total), limit, n, level)
    ensures n <= |values| && RoomLeft((|values| - n) as real, limit) && Dust(Sum(values[..n]), limit, total)
  {
    var e := DivideAll(values, total);
    PrefixScales(values, total, n);
    DustToWeights(level, (|e| - n) as real, limit, Sum(e[..n]), total, Sum(values[..n]));
  }

  lemma IsDust(weights: seq<real>, limit: real, n: nat)
    requires n <= |weights| && RoomLeft((|weights| - n) as real, limit)
    requires Dust(Sum(Sort(weights, Ascending)[..n]), limit, Sum(weights))
    ensures AllButDust(weights, limit, |weights| - n)
  {
    assert |weights| - (|weights| - n) == n;
  }

  /** The outcome of the cut at the level `cut`. */
  ghost predicate CutOutcome(weights: seq<real>, cut: real, r: seq<real>) {
    && weights != []
    && r == if Sum(CapAt(weights, cut)) == 0.0 then Uniform(|weights|) else NormalizeToUnit(CapAt(weights, cut))
  }

  lemma CutIsCapped(weights: seq<real>, limit: real, cut: real, r: seq<real>)
    requires CutOutcome(weights, cut, r) && Sum(CapAt(weights, cut)) != 0.0
    requires CutAtLimit(weights, limit, cut, NormalizeToUnit(CapAt(weights, cut)))
    ensures Capped(weights, limit, r)
  {
  }

  lemma DustIsCapped(weights: seq<real>, limit: real, cut: real, few: nat, r: seq<real>)
    requires CutOutcome(weights, cut, r) && cut <= 0.0 && forall k | 0 <= k < |weights| :: weights[k] >= 0.0
    requires AllButDust(weights, limit, few)
    ensures Capped(weights, limit, r)
  {
    CutToNothing(weights, cut);
  }

  lemma CutOrDust(weights: seq<real>, limit: real, n: nat, level: real, cut: real, r: seq<real>)
    requires ToCap(weights, limit) && weights != [] && Scales(level, Sum(weights), cut)
    requires Levelled(DivideAll(Sort(weights, Ascending), Sum(weights)), limit, n, level)
    requires CutOutcome(weights, cut, r)
    ensures Capped(weights, limit, r)
  {
    ScalesPositive(level, Sum(weights), cut);
    if level > 0.0 {
      CutOrNot(weights, Sort(weights, Ascending), limit, n, level, cut);
      CutIsCapped(weights, limit, cut, r);
    } else {
      EndsInDust(Sort(weights, Ascending), Sum(weights), limit, n, level);
      IsDust(weights, limit, n);
      DustIsCapped(weights, limit, cut, |weights| - n, r);
    }
  }

  lemma CutoffScales(sum: real, great: real, limit: real, total: real)
    requires RoomLeft(great, limit)
    ensures Scales(CutoffScale(sum, great, limit), total, Cutoff(sum, great, limit, total))
  {
  }

  lemma LevelFound(e: seq<real>, limit: real, n: nat, total: real) returns (level: real, cut: real)
    requires SharesInOrder(e) && limit > 0.0 && CountFits(e, limit, n)
    ensures Levelled(e, limit, n, level) && Scales(level, total, cut)
    ensures RoomLeft((|e| - n) as real, limit) && cut == Cutoff(Sum(e[..n]), (|e| - n) as real, limit, total)
  {
    var great, sum := (|e| - n) as real, Sum(e[..n]);
    level, cut := CutoffScale(sum, great, limit), Cutoff(sum, great, limit, total);
    CutoffScales(sum, great, limit, total);
    CutoffSolves(sum, great, limit);
  }

  lemma CutFound(weights: seq<real>, e: seq<real>, limit: real, total: real) returns (n: nat, level: real, cut: real)
    requires SharesInOrder(e) && limit > 0.0 && Exceeds(|e| as real, limit) && |weights| == |e|
    ensures Levelled(e, limit, n, level) && Scales(level, total, cut)
    ensures CutOutcome(weights, cut, CutWeights(weights, e, limit, total))
  {
    CountFitsLimit(e, limit);
    n := UnderLimit(e, limit, 0);
    level, cut := LevelFound(e, limit, n, total);
    CutUnfolds(weights, e, limit, total, n);
  }

  lemma CutCaps(weights: seq<real>, e: seq<real>, limit: real)
    requires ToCap(weights, limit) && weights != []
    requires e == DivideAll(Sort(weights, Ascending), Sum(weights)) && SharesInOrder(e)
    ensures Capped(weights, limit, CutWeights(weights, e, limit, Sum(weights)))
  {
    var n, level, cut := CutFound(weights, e, limit, Sum(weights));
    CutOrDust(weights, limit, n, level, cut, CutWeights(weights, e, limit, Sum(weights)));
  }

  ghost predicate Within(x: real, limit: real, total: real) {
    x <= limit * total
  }

  lemma QuotientWithin(q: real, x: real, limit: real, total: real)
    requires total > 0.0 && q * total == x
    ensures q <= limit <==> Within(x, limit, total)
  {
    if q <= limit {
      ProductInOrder(total, q, limit);
    } else {
      LessTimes(limit, q, total);
    }
  }

  lemma ShareWithin(x: real, limit: real, total: real)
    requires total > 0.0
    ensures x / total <= limit <==> Within(x, limit, total)
  {
    Cancel(x, total);
    QuotientWithin(x / total, x, limit, total);
  }

  lemma NoShareOver(values: seq<real>, weights: seq<real>, limit: real, total: real)
    requires total > 0.0 && multiset(values) == multiset(weights) && values != []
    ensures Max(DivideAll(values, total)) <= limit <==>
      forall k | 0 <= k < |weights| :: Within(weights[k], limit, total)
  {
    var e := DivideAll(values, total);
    SameElements(values, weights);
    forall k | 0 <= k < |values| ensures e[k] <= limit <==> Within(values[k], limit, total) {
      DividedIndex(values, total, k);
      ShareWithin(values[k], limit, total);
    }
    forall k | 0 <= k < |weights| && Max(e) <= limit ensures Within(weights[k], limit, total) {
      assert weights[k] in values;
    }
    assert forall k | 0 <= k < |values| :: values[k] in weights;
  }

  lemma NormalizeUnfolds(weights: seq<real>, limit: real)
    requires ToCap(weights, limit) && SharesInOrder(DivideAll(Sort(weights, Ascending), Sum(weights)))
    ensures var e := DivideAll(Sort(weights, Ascending), Sum(weights));
      weights != [] && NormalizeMaxWeight(weights, limit) ==
        if Max(e) <= limit then NormalizeToUnit(weights) else CutWeights(weights, e, limit, Sum(weights))
  {
  }

  /** What the chain's limit does. Where no weight is more than the limit's part of the total, nothing: the weights are
      divided by it. Otherwise all are cut at one level, which is the limit's part of what it leaves up to EPSILON of
      the total, and divided by that; or, when all but dust is held by fewer than the limit needs, they come out
      uniform. */
  lemma CapMeetsLimit(weights: seq<real>, limit: real)
    requires ToCap(weights, limit)
    ensures var r := NormalizeMaxWeight(weights, limit);
      if forall k | 0 <= k < |weights| :: Within(weights[k], limit, Sum(weights))
      then r == DivideAll(weights, Sum(weights)) else Capped(weights, limit, r)
  {
    var values := Sort(weights, Ascending);
    SharesOf(weights);
    NormalizeUnfolds(weights, limit);
    NoShareOver(values, weights, limit, Sum(weights));
    UnitBySum(weights);
    CutCaps(weights, DivideAll(values, Sum(weights)), limit);
  }

  // -- the whole transform ------------------------------------------------------------

  lemma {:induction false} PaddedAt(size: nat, uids: seq<int>, weights: seq<real>, k: nat)
    requires |uids| == |weights| && Distinct(uids) && (forall i | 0 <= i < |uids| :: 0 <= uids[i] < size) && k < |uids|
    ensures Padded(size, uids, weights)[uids[k]] == MIN_NON_ZERO_WEIGHT + weights[k]
    decreases |uids|
  {
    var n := |uids| - 1;
    if k < n {
      PaddedAt(size, uids[..n], weights[..n], k);
    } else {
      PaddedElsewhere(size, uids[..n], weights[..n], uids[n]);
    }
  }

  lemma {:induction false} PaddedElsewhere(size: nat, uids: seq<int>, weights: seq<real>, u: nat)
    requires |uids| == |weights| && (forall i | 0 <= i < |uids| :: 0 <= uids[i] < size) && u < size && u !in uids
    ensures Padded(size, uids, weights)[u] == MIN_NON_ZERO_WEIGHT
    decreases |uids|
  {
    if uids != [] {
      PaddedElsewhere(size, uids[..|uids| - 1], weights[..|uids| - 1], u);
    }
  }

  /** Without an excluded quantile, none of the positive weights is dropped: every UID gets the same where none is
      positive or the metagraph is smaller than the chain's minimum, all are padded where too few are, and otherwise
      exactly the positive ones go to the cap. */
  lemma ProcessedKeepsPositive(uids: seq<int>, weights: seq<real>, size: nat, minAllowed: nat, limit: real)
    requires |uids| == |weights| && size > 0 && forall k | 0 <= k < |uids| :: 0 <= uids[k] < size
    ensures var (us, ws) := Filter(uids, weights, 0.0, true);
      var r := Processed(uids, weights, size, minAllowed, limit, EMISSION_EXCLUDE_QUANTILE);
      && (ws == [] || size < minAllowed ==> r == Ok((Range(size), Uniform(size))))
      && (ws != [] && minAllowed <= size && minAllowed <= |ws| ==> r == Ok((us, NormalizeMaxWeight(ws, limit))))
      && (ws != [] && |ws| < minAllowed <= size ==>
            && (forall k | 0 <= k < |us| :: 0 <= us[k] < size)
            && (forall k | 0 <= k < size :: Padded(size, us, ws)[k] > 0.0)
            && r == Ok((Range(size), NormalizeMaxWeight(Padded(size, us, ws), limit))))
  {
    var (us, ws) := Filter(uids, weights, 0.0, true);
    FilteredUids(uids, weights, 0.0, true);
    forall k | 0 <= k < |us| ensures 0 <= us[k] < size {
      assert us[k] in us;
    }
    PaddedPositive(size, us, ws);
    if ws != [] && minAllowed <= size && minAllowed <= |ws| {
      assert ExcludedShare(EMISSION_EXCLUDE_QUANTILE, |ws|, minAllowed) == 0.0;
      forall k | 0 <= k < |ws| ensures DecimalQuantile(ws, 0.0) <= ws[k] {
        LowestIsKept(ws, k);
      }
      FilterKeepsAll(us, ws, DecimalQuantile(ws, 0.0));
    }
  }
}
