/** Normalisation and the chain's limits: from raw scores to the vector the chain will be sent. */
module ChainWeights {
  import opened Wrappers
  import opened Sums
  import opened Sorting
  import opened WeightProcessing
  import opened WeightRounding

  // -- division of a whole vector ----------------------------------------

  function DivideAll(s: seq<real>, total: real): (r: seq<real>)
    requires total != 0.0
    ensures |r| == |s|
  {
    if s == [] then [] else [s[0] / total] + DivideAll(s[1..], total)
  }

  lemma Cancel(a: real, total: real)
    requires total != 0.0
    ensures a / total * total == a
  {
  }

  lemma {:induction false} DividedIndex(s: seq<real>, total: real, k: nat)
    requires total != 0.0 && k < |s|
    ensures DivideAll(s, total)[k] == s[k] / total
  {
    if k > 0 {
      DividedIndex(s[1..], total, k - 1);
    }
  }

  lemma {:induction false} DividedSum(s: seq<real>, total: real)
    requires total != 0.0
    ensures Sum(DivideAll(s, total)) * total == Sum(s)
  {
    if s != [] {
      DividedSum(s[1..], total);
      Cancel(s[0], total);
      Distribute(s[0] / total, Sum(DivideAll(s[1..], total)), total);
    }
  }

  lemma ProductOne(a: real, total: real, product: real)
    requires total != 0.0 && a * total == product && product == total
    ensures a == 1.0
  {
    assert (a - 1.0) * total == 0.0;
  }

  lemma DividedByOwnSum(s: seq<real>, total: real)
    requires total != 0.0 && Sum(s) == total
    ensures Sum(DivideAll(s, total)) == 1.0
  {
    DividedSum(s, total);
    ProductOne(Sum(DivideAll(s, total)), total, Sum(s));
  }

  lemma PositiveQuotient(a: real, total: real)
    requires total > 0.0
    ensures a > 0.0 <==> a / total > 0.0
    ensures a == 0.0 <==> a / total == 0.0
    ensures a >= 0.0 ==> a / total >= 0.0
  {
  }

  lemma DividedSign(s: seq<real>, total: real)
    requires total > 0.0
    ensures forall k | 0 <= k < |s| :: (s[k] > 0.0 <==> DivideAll(s, total)[k] > 0.0)
    ensures forall k | 0 <= k < |s| && s[k] >= 0.0 :: DivideAll(s, total)[k] >= 0.0
  {
    forall k | 0 <= k < |s|
      ensures s[k] > 0.0 <==> DivideAll(s, total)[k] > 0.0
      ensures s[k] >= 0.0 ==> DivideAll(s, total)[k] >= 0.0
    {
      DividedIndex(s, total, k);
      PositiveQuotient(s[k], total);
    }
  }

  // -- scores to a candidate ---------------------------------------------

  function Clamped(scores: seq<real>): (r: seq<real>)
    ensures |r| == |scores|
    ensures forall k | 0 <= k < |r| :: r[k] == if scores[k] > 0.0 then scores[k] else 0.0
  {
    seq(|scores|, k requires 0 <= k < |scores| => if scores[k] > 0.0 then scores[k] else 0.0)
  }

  function NormalizeScores(scores: seq<real>): (r: seq<real>)
    ensures |r| == |scores|
  {
    var norm := Sum(Clamped(scores));
    if norm <= 0.0 then seq(|scores|, k => 0.0) else DivideAll(Clamped(scores), norm)
  }

  function EmissionCandidate(scores: seq<real>): Option<seq<real>> {
    var raw := NormalizeScores(scores);
    if exists k | 0 <= k < |raw| :: raw[k] > 0.0 then Some(raw) else None
  }

  /** A candidate exists exactly when some score is positive; it is a unit vector on those scores. */
  lemma CandidateFacts(scores: seq<real>)
    ensures EmissionCandidate(scores).Some? <==> exists k :: 0 <= k < |scores| && scores[k] > 0.0
    ensures EmissionCandidate(scores).Some? ==>
      var raw := EmissionCandidate(scores).value;
      && |raw| == |scores| && Sum(raw) == 1.0
      && forall k | 0 <= k < |raw| :: raw[k] >= 0.0 && (raw[k] > 0.0 <==> scores[k] > 0.0)
  {
    var clamped := Clamped(scores);
    SumNonNegative(clamped);
    if Sum(clamped) > 0.0 {
      DividedSign(clamped, Sum(clamped));
      DividedByOwnSum(clamped, Sum(clamped));
      if forall k | 0 <= k < |scores| :: scores[k] <= 0.0 {
        SumScale(clamped, clamped, 0.0);
      }
      assert exists k :: 0 <= k < |scores| && scores[k] > 0.0;
      var k :| 0 <= k < |scores| && scores[k] > 0.0;
      assert NormalizeScores(scores)[k] > 0.0;
    } else {
      forall k | 0 <= k < |scores| ensures scores[k] <= 0.0 {
        assert clamped[k] <= Sum(clamped);
      }
    }
  }

  // -- chain limits ------------------------------------------------------

  function Uniform(n: nat): (r: seq<real>)
    requires n > 0
    ensures |r| == n
  {
    seq(n, _ => 1.0 / n as real)
  }

  function NormalizeToUnit(weights: seq<real>): (r: seq<real>)
    ensures |r| == |weights|
  {
    if weights == [] then [] else
      var total := Sum(weights);
      var normalized := if total == 0.0 then Uniform(|weights|) else DivideAll(weights, total);
      var last := |weights| - 1;
      normalized[last := normalized[last] + (1.0 - Sum(normalized))]
  }

  function CumulativeSum(values: seq<real>): (r: seq<real>)
    ensures |r| == |values| && forall i | 0 <= i < |r| :: r[i] == Sum(values[..i + 1])
  {
    seq(|values|, i requires 0 <= i < |values| => Sum(values[..i + 1]))
  }

  /** How many of the sorted estimates stay under the limit. */
  function UnderLimit(estimation: seq<real>, limit: real, i: nat): nat
    requires i <= |estimation| && forall k | 0 <= k < |estimation| :: estimation[k] >= 0.0
    decreases |estimation| - i
  {
    if i == |estimation| then 0 else
      SumNonNegative(estimation[..i + 1]);
      var rest := (|estimation| - i - 1) as real * estimation[i];
      var denominator := rest + Sum(estimation[..i + 1]) + EPSILON;
      (if estimation[i] / denominator < limit then 1 else 0) + UnderLimit(estimation, limit, i + 1)
  }

  lemma {:induction false} UnderLimitBound(estimation: seq<real>, limit: real, i: nat)
    requires i <= |estimation| && forall k | 0 <= k < |estimation| :: estimation[k] >= 0.0
    ensures UnderLimit(estimation, limit, i) <= |estimation| - i
    decreases |estimation| - i
  {
    if i < |estimation| {
      UnderLimitBound(estimation, limit, i + 1);
    }
  }

  function CapAt(weights: seq<real>, cutoff: real): (r: seq<real>)
    ensures |r| == |weights|
  {
    seq(|weights|, k requires 0 <= k < |weights| => if weights[k] < cutoff then weights[k] else cutoff)
  }

  /** What `great` shares at the limit leave for the others. */
  function Room(great: real, limit: real): real {
    1.0 - limit * great
  }

  /** The level at which `great` shares each have the limit's part of themselves and of the others' sum. */
  function CutoffScale(sum: real, great: real, limit: real): real
    requires Room(great, limit) > 0.0
  {
    (limit * sum - EPSILON) / Room(great, limit)
  }

  function Cutoff(sum: real, great: real, limit: real, total: real): real
    requires Room(great, limit) > 0.0
  {
    CutoffScale(sum, great, limit) * total
  }

  /** Cut at the level at which the shares that stay under leave the others exactly the limit. */
  function CutWeights(weights: seq<real>, estimation: seq<real>, limit: real, total: real): (r: seq<real>)
    requires weights != [] && |weights| == |estimation| && forall k | 0 <= k < |estimation| :: estimation[k] >= 0.0
    ensures |r| == |weights|
  {
    var n := UnderLimit(estimation, limit, 0);
    UnderLimitBound(estimation, limit, 0);
    var great := (|estimation| - n) as real;
    if n == 0 || Room(great, limit) <= 0.0 then NormalizeToUnit(weights) else
      var capped := CapAt(weights, Cutoff(CumulativeSum(estimation)[n - 1], great, limit, total));
      if Sum(capped) == 0.0 then Uniform(|capped|) else NormalizeToUnit(capped)
  }

  /** Normalise and cap; every caller passes weights that are not negative. */
  function NormalizeMaxWeight(weights: seq<real>, limit: real): (r: seq<real>)
    requires forall k | 0 <= k < |weights| :: weights[k] >= 0.0
    ensures |r| == |weights|
  {
    if weights == [] then [] else
      SumNonNegative(weights);
      var total := Sum(weights);
      if total == 0.0 || |weights| as real * limit <= 1.0 then Uniform(|weights|) else
        var values := Sort(weights, Ascending);
        SumPermutation(values, weights);
        var estimation := DivideAll(values, total);
        SameElements(values, weights);
        assert forall k | 0 <= k < |values| :: values[k] in weights;
        DividedSign(values, total);
        if Max(estimation) <= limit then NormalizeToUnit(weights) else CutWeights(weights, estimation, limit, total)
  }

  lemma UniformSum(n: nat)
    requires n > 0
    ensures Sum(Uniform(n)) == 1.0
  {
    var share := 1.0 / n as real;
    ConstantSum(Uniform(n), share);
    Cancel(1.0, n as real);
  }

  lemma {:induction false} ConstantSum(s: seq<real>, c: real)
    requires forall k | 0 <= k < |s| :: s[k] == c
    ensures Sum(s) == c * |s| as real
  {
    if s != [] {
      ConstantSum(s[1..], c);
      Distribute(1.0, |s[1..]| as real, c);
    }
  }

  lemma UnitSum(weights: seq<real>)
    requires weights != []
    ensures Sum(NormalizeToUnit(weights)) == 1.0
  {
    var total := Sum(weights);
    var normalized := if total == 0.0 then Uniform(|weights|) else DivideAll(weights, total);
    SumUpdate(normalized, |weights| - 1, normalized[|weights| - 1] + (1.0 - Sum(normalized)));
  }

  /** Whatever branch the cap takes, a nonempty vector comes out summing to one. */
  lemma CappedSum(weights: seq<real>, limit: real)
    requires weights != [] && forall k | 0 <= k < |weights| :: weights[k] >= 0.0
    ensures Sum(NormalizeMaxWeight(weights, limit)) == 1.0
  {
    UniformSum(|weights|);
    UnitSum(weights);
    forall cutoff: real ensures Sum(NormalizeToUnit(CapAt(weights, cutoff))) == 1.0 {
      UnitSum(CapAt(weights, cutoff));
    }
  }

  /** A positive vector divided by its sum: positive entries adding up to one, none above it. */
  lemma DividedShares(weights: seq<real>)
    requires weights != [] && forall k | 0 <= k < |weights| :: weights[k] > 0.0
    ensures Sum(weights) > 0.0
    ensures var shares := DivideAll(weights, Sum(weights));
      Sum(shares) == 1.0 && forall k | 0 <= k < |shares| :: 0.0 < shares[k] <= 1.0
  {
    SumNonNegative(weights);
    assert weights[0] <= Sum(weights);
    DividedByOwnSum(weights, Sum(weights));
    DividedSign(weights, Sum(weights));
    SumNonNegative(DivideAll(weights, Sum(weights)));
  }

  lemma UnitOfShares(weights: seq<real>)
    requires weights != [] && forall k | 0 <= k < |weights| :: weights[k] > 0.0
    ensures Sum(weights) > 0.0 && NormalizeToUnit(weights) == DivideAll(weights, Sum(weights))
  {
    DividedShares(weights);
    var n := DivideAll(weights, Sum(weights));
    NoCorrection(n);
  }

  lemma NoCorrection(n: seq<real>)
    requires n != [] && Sum(n) == 1.0
    ensures n[|n| - 1 := n[|n| - 1] + (1.0 - Sum(n))] == n
  {
  }

  lemma SortedShares(weights: seq<real>)
    requires weights != [] && forall k | 0 <= k < |weights| :: weights[k] > 0.0
    ensures var values := Sort(weights, Ascending);
      && Sum(values) == Sum(weights) > 0.0
      && Max(DivideAll(values, Sum(weights))) <= 1.0
  {
    var values := Sort(weights, Ascending);
    SumPermutation(values, weights);
    SameElements(values, weights);
    assert forall k | 0 <= k < |values| :: values[k] in weights;
    DividedShares(values);
  }

  lemma DivideSingleton(weights: seq<real>, total: real)
    requires |weights| == 1 && total > 0.0 && weights[0] == total
    ensures DivideAll(weights, total) == Uniform(1)
  {
    assert weights[0] / total == 1.0;
    assert DivideAll(weights[1..], total) == [];
  }

  lemma UncappedSeveral(weights: seq<real>)
    requires |weights| > 1 && forall k | 0 <= k < |weights| :: weights[k] > 0.0
    ensures NormalizeMaxWeight(weights, 1.0) == NormalizeToUnit(weights)
  {
    SortedShares(weights);
    assert |weights| as real * 1.0 > 1.0;
  }

  lemma UncappedSingle(weights: seq<real>)
    requires |weights| == 1 && weights[0] > 0.0
    ensures NormalizeMaxWeight(weights, 1.0) == Uniform(1)
  {
    assert |weights| as real * 1.0 <= 1.0;
  }

  /** At limit one nothing is capped: the weights are divided by their sum. */
  lemma UncappedAtOne(weights: seq<real>)
    requires weights != [] && forall k | 0 <= k < |weights| :: weights[k] > 0.0
    ensures Sum(weights) > 0.0
    ensures NormalizeMaxWeight(weights, 1.0) == DivideAll(weights, Sum(weights))
  {
    DividedShares(weights);
    if |weights| == 1 {
      DivideSingleton(weights, Sum(weights));
      UncappedSingle(weights);
    } else {
      UncappedSeveral(weights);
      UnitOfShares(weights);
    }
  }

  // -- process_weights ---------------------------------------------------

  /** The pairs whose weight reaches `floor` (strictly exceeds it when `strict`), in order. */
  function Filter(uids: seq<int>, weights: seq<real>, floor: real, strict: bool): (r: (seq<int>, seq<real>))
    requires |uids| == |weights|
    ensures |r.0| == |r.1| <= |uids|
    ensures forall i | 0 <= i < |r.1| :: r.1[i] > floor || (!strict && r.1[i] == floor)
  {
    if uids == [] then ([], []) else
      var (us, ws) := Filter(uids[1..], weights[1..], floor, strict);
      if weights[0] > floor || (!strict && weights[0] == floor) then ([uids[0]] + us, [weights[0]] + ws) else (us, ws)
  }

  function DecimalQuantile(values: seq<real>, q: real): real
    requires values != [] && 0.0 <= q <= 1.0
  {
    var ordered := Sort(values, Ascending);
    if |ordered| == 1 then ordered[0] else
      var position := q * (|ordered| - 1) as real;
      QuantilePosition(q, |ordered| - 1);
      var lowerIndex := position.Floor;
      var upperIndex := if lowerIndex + 1 < |ordered| then lowerIndex + 1 else |ordered| - 1;
      ordered[lowerIndex] + (ordered[upperIndex] - ordered[lowerIndex]) * (position - lowerIndex as real)
  }

  lemma QuantilePosition(q: real, n: nat)
    requires 0.0 <= q <= 1.0
    ensures 0 <= (q * n as real).Floor <= n
  {
    PartOf(q, n as real);
  }

  lemma PartOf(q: real, m: real)
    requires 0.0 <= q <= 1.0 && m >= 0.0
    ensures 0.0 <= q * m <= m
  {
    var rest := 1.0 - q;
    assert rest * m >= 0.0;
    assert rest * m == m - q * m;
  }

  /** The chain's minimum filled up: a small weight for every UID, the given weights on top. */
  function Padded(size: nat, uids: seq<int>, weights: seq<real>): (r: seq<real>)
    requires |uids| == |weights| && forall k | 0 <= k < |uids| :: 0 <= uids[k] < size
    ensures |r| == size
    decreases |uids|
  {
    if uids == [] then seq(size, _ => MIN_NON_ZERO_WEIGHT) else
      var n := |uids| - 1;
      var r := Padded(size, uids[..n], weights[..n]);
      r[uids[n] := r[uids[n]] + weights[n]]
  }

  lemma {:induction false} PaddedPositive(size: nat, uids: seq<int>, weights: seq<real>)
    requires |uids| == |weights| && forall k | 0 <= k < |uids| :: 0 <= uids[k] < size
    requires forall k | 0 <= k < |weights| :: weights[k] > 0.0
    ensures forall k | 0 <= k < size :: Padded(size, uids, weights)[k] > 0.0
    decreases |uids|
  {
    if uids != [] {
      PaddedPositive(size, uids[..|uids| - 1], weights[..|uids| - 1]);
    }
  }

  lemma {:induction false} FilteredUids(uids: seq<int>, weights: seq<real>, floor: real, strict: bool)
    requires |uids| == |weights|
    ensures forall u | u in Filter(uids, weights, floor, strict).0 :: u in uids
  {
    if uids != [] {
      FilteredUids(uids[1..], weights[1..], floor, strict);
    }
  }

  function ExcludedShare(excludeQuantile: nat, positives: nat, minAllowed: nat): (q: real)
    requires positives > 0
    ensures 0.0 <= q <= 1.0
  {
    var quantile := excludeQuantile as real / 65535.0;
    var maxExclude := if positives <= minAllowed then 0.0 else (positives - minAllowed) as real / positives as real;
    if quantile < maxExclude then quantile else maxExclude
  }

  /** The specification of process_weights. */
  function Processed(uids: seq<int>, weights: seq<real>, size: nat, minAllowed: nat, limit: real, excludeQuantile: nat)
    : Result<(seq<int>, seq<real>), WeightError>
  {
    if |uids| != |weights| then Err(LengthMismatch)
    else if exists k | 0 <= k < |uids| :: uids[k] < 0 || uids[k] >= size then Err(UidOutsideMetagraph)
    else if size == 0 then Ok(([], []))
    else
      var (us, ws) := Filter(uids, weights, 0.0, true);
      FilteredUids(uids, weights, 0.0, true);
      if us == [] || size < minAllowed then Ok((Range(size), Uniform(size)))
      else if |us| < minAllowed then
        assert forall k | 0 <= k < |us| :: us[k] in us;
        PaddedPositive(size, us, ws);
        Ok((Range(size), NormalizeMaxWeight(Padded(size, us, ws), limit)))
      else
        var lowest := DecimalQuantile(ws, ExcludedShare(excludeQuantile, |ws|, minAllowed));
        var (fs, gs) := Filter(us, ws, lowest, false);
        FilterKeepsPositive(us, ws, lowest);
        Ok((fs, NormalizeMaxWeight(gs, limit)))
  }

  lemma {:induction false} FilterKeepsPositive(uids: seq<int>, weights: seq<real>, floor: real)
    requires |uids| == |weights| && forall k | 0 <= k < |weights| :: weights[k] > 0.0
    ensures forall k | 0 <= k < |Filter(uids, weights, floor, false).1| ::
      Filter(uids, weights, floor, false).1[k] > 0.0
  {
    if uids != [] {
      FilterKeepsPositive(uids[1..], weights[1..], floor);
    }
  }

  method PadWeights(size: nat, uids: seq<int>, weights: seq<real>) returns (padded: seq<real>)
    requires |uids| == |weights| && forall k | 0 <= k < |uids| :: 0 <= uids[k] < size
    ensures padded == Padded(size, uids, weights)
  {
    padded := seq(size, _ => MIN_NON_ZERO_WEIGHT);
    for k := 0 to |uids|
      invariant |padded| == size && padded == Padded(size, uids[..k], weights[..k])
    {
      assert uids[..k + 1][..k] == uids[..k] && weights[..k + 1][..k] == weights[..k];
      padded := padded[uids[k] := padded[uids[k]] + weights[k]];
    }
    assert uids[..|uids|] == uids && weights[..|uids|] == weights;
  }

  method ProcessWeights(uids: seq<int>, weights: seq<real>, size: nat, minAllowed: nat, limit: real,
                        excludeQuantile: nat)
    returns (r: Result<(seq<int>, seq<real>), WeightError>)
    ensures r == Processed(uids, weights, size, minAllowed, limit, excludeQuantile)
    ensures r.Ok? && size > 0 ==> |r.value.0| == |r.value.1| && (r.value.1 != [] ==> Sum(r.value.1) == 1.0)
  {
    if |uids| != |weights| {
      return Err(LengthMismatch);
    }
    if exists k | 0 <= k < |uids| :: uids[k] < 0 || uids[k] >= size {
      return Err(UidOutsideMetagraph);
    }
    if size == 0 {
      return Ok(([], []));
    }
    ProcessedSumsToOne(uids, weights, size, minAllowed, limit, excludeQuantile);
    var (us, ws) := Filter(uids, weights, 0.0, true);
    FilteredUids(uids, weights, 0.0, true);
    assert forall k | 0 <= k < |us| :: us[k] in us;
    if us == [] || size < minAllowed {
      return Ok((Range(size), Uniform(size)));
    }
    if |us| < minAllowed {
      var padded := PadWeights(size, us, ws);
      PaddedPositive(size, us, ws);
      return Ok((Range(size), NormalizeMaxWeight(padded, limit)));
    }
    var lowest := DecimalQuantile(ws, ExcludedShare(excludeQuantile, |ws|, minAllowed));
    var (fs, gs) := Filter(us, ws, lowest, false);
    FilterKeepsPositive(us, ws, lowest);
    return Ok((fs, NormalizeMaxWeight(gs, limit)));
  }

  /** For a nonempty metagraph the processed weights sum to one, whatever the limits. */
  lemma ProcessedSumsToOne(uids: seq<int>, weights: seq<real>, size: nat, minAllowed: nat, limit: real,
                           excludeQuantile: nat)
    ensures var r := Processed(uids, weights, size, minAllowed, limit, excludeQuantile);
      r.Ok? && size > 0 ==> |r.value.0| == |r.value.1| && (r.value.1 != [] ==> Sum(r.value.1) == 1.0)
  {
    if |uids| == |weights| && size > 0 && forall k | 0 <= k < |uids| :: 0 <= uids[k] < size {
      var (us, ws) := Filter(uids, weights, 0.0, true);
      FilteredUids(uids, weights, 0.0, true);
      assert forall k | 0 <= k < |us| :: us[k] in us;
      UniformSum(size);
      if us != [] && size >= minAllowed {
        if |us| < minAllowed {
          PaddedPositive(size, us, ws);
          CappedSum(Padded(size, us, ws), limit);
        } else {
          var lowest := DecimalQuantile(ws, ExcludedShare(excludeQuantile, |ws|, minAllowed));
          var gs := Filter(us, ws, lowest, false).1;
          FilterKeepsPositive(us, ws, lowest);
          if gs != [] {
            CappedSum(gs, limit);
          }
        }
      }
    }
  }

  // -- the chain weight vector -------------------------------------------

  const EMISSION_EXCLUDE_QUANTILE: nat := 0

  function ChainWeightVector(raw: seq<real>, uids: seq<int>, size: nat, minAllowed: nat, limit: real,
                             groups: seq<seq<int>>)
    : Result<Vote, WeightError>
  {
    var processed :- Processed(uids, raw, size, minAllowed, limit, EMISSION_EXCLUDE_QUANTILE);
    Encode(processed.0, processed.1, groups)
  }

  lemma LowestIsKept(values: seq<real>, k: nat)
    requires k < |values|
    ensures DecimalQuantile(values, 0.0) <= values[k]
  {
    var ordered := Sort(values, Ascending);
    SortSorted(values, Ascending);
    SameElements(ordered, values);
    assert values[k] in ordered;
    var i :| 0 <= i < |ordered| && ordered[i] == values[k];
    assert i > 0 ==> Ascending(ordered[0], ordered[i]);
  }

  lemma {:induction false} FilterKeepsAll(uids: seq<int>, weights: seq<real>, floor: real)
    requires |uids| == |weights| && forall k | 0 <= k < |weights| :: floor <= weights[k]
    ensures Filter(uids, weights, floor, false) == (uids, weights)
  {
    if uids != [] {
      FilterKeepsAll(uids[1..], weights[1..], floor);
      assert uids == [uids[0]] + uids[1..] && weights == [weights[0]] + weights[1..];
    }
  }

  /** At chain minimum one and limit one, processing divides the positive weights by their sum. */
  lemma ProcessedAtOne(uids: seq<int>, weights: seq<real>, size: nat)
    requires |uids| == |weights| && size > 0 && forall k | 0 <= k < |uids| :: 0 <= uids[k] < size
    requires exists k :: 0 <= k < |weights| && weights[k] > 0.0
    ensures var (us, ws) := Filter(uids, weights, 0.0, true);
      && ws != [] && Sum(ws) > 0.0
      && Processed(uids, weights, size, 1, 1.0, EMISSION_EXCLUDE_QUANTILE) == Ok((us, DivideAll(ws, Sum(ws))))
  {
    var (us, ws) := Filter(uids, weights, 0.0, true);
    FilteredUids(uids, weights, 0.0, true);
    FilterFinds(uids, weights);
    assert ExcludedShare(EMISSION_EXCLUDE_QUANTILE, |ws|, 1) == 0.0;
    forall k | 0 <= k < |ws| ensures DecimalQuantile(ws, 0.0) <= ws[k] {
      LowestIsKept(ws, k);
    }
    FilterKeepsAll(us, ws, DecimalQuantile(ws, 0.0));
    UncappedAtOne(ws);
  }

  lemma {:induction false} FilterFinds(uids: seq<int>, weights: seq<real>)
    requires |uids| == |weights| && exists k :: 0 <= k < |weights| && weights[k] > 0.0
    ensures Filter(uids, weights, 0.0, true).1 != []
  {
    var k :| 0 <= k < |weights| && weights[k] > 0.0;
    if k > 0 {
      assert weights[1..][k - 1] > 0.0;
      FilterFinds(uids[1..], weights[1..]);
    }
  }
}
