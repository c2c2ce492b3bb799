/** Where a time falls among the finalized blocks. */
module MarketSampling {
  import opened Wrappers

  datatype ArchiveError = NotCovered | PrecedesHistory

  predicate Increasing(times: seq<int>) {
    forall i, j | 0 <= i < j < |times| :: times[i] < times[j]
  }

  /** `b` is the first block stamped at or after `t`. */
  predicate IsFirst(times: seq<int>, t: int, b: nat) {
    b < |times| && times[b] >= t && (b > 0 ==> times[b - 1] < t)
  }

  /** `b` is the last block stamped at or before `t`, and a later block is stamped after it or `t` is its own stamp. */
  predicate IsLast(times: seq<int>, t: int, b: nat) {
    b < |times| && times[b] <= t && (times[b] == t || (b + 1 < |times| && times[b + 1] > t))
  }

  /** The length of `n` in binary. */
  function Bits(n: nat): nat {
    if n == 0 then 0 else 1 + Bits(n / 2)
  }

  function PowerOfTwo(n: nat): nat {
    if n == 0 then 1 else 2 * PowerOfTwo(n - 1)
  }

  lemma {:induction false} BitsGrow(a: nat, b: nat)
    requires a <= b
    ensures Bits(a) <= Bits(b)
  {
    if a > 0 {
      BitsGrow(a / 2, b / 2);
    }
  }

  /** The binary length is logarithmic. */
  lemma {:induction false} BitsAreLogarithmic(n: nat)
    ensures n < PowerOfTwo(Bits(n))
    ensures n > 0 ==> PowerOfTwo(Bits(n) - 1) <= n
  {
    if n > 1 {
      BitsAreLogarithmic(n / 2);
    }
  }

  method FirstBlockAtOrAfter(t: int, finalized: nat, times: seq<int>)
    returns (r: Result<nat, ArchiveError>, lookups: nat)
    requires finalized < |times| && Increasing(times)
    ensures r.Err? <==> times[finalized] < t
    ensures r.Err? ==> r.error == NotCovered
    ensures r.Ok? ==> r.value <= finalized && IsFirst(times, t, r.value)
    ensures lookups <= 1 + Bits(finalized)
  {
    lookups := 1;
    if times[finalized] < t {
      return Err(NotCovered), lookups;
    }
    if times[finalized] == t {
      return Ok(finalized), lookups;
    }
    var lower, upper := 0, finalized;
    while lower < upper
      invariant 0 <= lower <= upper <= finalized
      invariant times[upper] >= t && (lower > 0 ==> times[lower - 1] < t)
      invariant lookups + Bits(upper - lower) <= 1 + Bits(finalized)
    {
      var midpoint := lower + (upper - lower) / 2;
      lookups := lookups + 1;
      ghost var width := upper - lower;
      if times[midpoint] >= t {
        upper := midpoint;
      } else {
        lower := midpoint + 1;
      }
      BitsGrow(upper - lower, width / 2);
    }
    return Ok(lower), lookups;
  }

  method LastBlockAtOrBefore(t: int, finalized: nat, times: seq<int>)
    returns (r: Result<nat, ArchiveError>, lookups: nat)
    requires finalized < |times| && Increasing(times)
    ensures r.Err? <==> times[finalized] < t || t < times[0]
    ensures r.Err? ==> r.error == if times[finalized] < t then NotCovered else PrecedesHistory
    ensures r.Ok? ==> r.value <= finalized && IsLast(times, t, r.value)
    ensures lookups <= 1 + Bits(finalized)
  {
    lookups := 1;
    if times[finalized] < t {
      return Err(NotCovered), lookups;
    }
    if times[finalized] == t {
      return Ok(finalized), lookups;
    }
    var lower, upper := 0, finalized;
    while lower < upper
      invariant 0 <= lower <= upper <= finalized
      invariant times[upper] > t && (lower > 0 ==> times[lower - 1] <= t)
      invariant lookups + Bits(upper - lower) <= 1 + Bits(finalized)
    {
      var midpoint := lower + (upper - lower) / 2;
      lookups := lookups + 1;
      ghost var width := upper - lower;
      if times[midpoint] > t {
        upper := midpoint;
      } else {
        lower := midpoint + 1;
      }
      BitsGrow(upper - lower, width / 2);
    }
    if lower == 0 {
      return Err(PrecedesHistory), lookups;
    }
    return Ok(lower - 1), lookups;
  }

  lemma NoEarlier(times: seq<int>, i: nat, j: nat)
    requires Increasing(times) && i <= j < |times|
    ensures times[i] <= times[j] && (times[i] == times[j] ==> i == j)
  {
  }

  /** The boundaries are unique, so they do not depend on which covering head was finalized when looked up. */
  lemma FirstUnique(times: seq<int>, t: int, a: nat, b: nat)
    requires Increasing(times) && IsFirst(times, t, a) && IsFirst(times, t, b)
    ensures a == b
  {
    if a < b {
      NoEarlier(times, a, b - 1);
    } else if b < a {
      NoEarlier(times, b, a - 1);
    }
  }

  lemma LastUnique(times: seq<int>, t: int, a: nat, b: nat)
    requires Increasing(times) && IsLast(times, t, a) && IsLast(times, t, b)
    ensures a == b
  {
    if a < b {
      NoEarlier(times, a + 1, b);
      NoEarlier(times, a, b);
    } else if b < a {
      NoEarlier(times, b + 1, a);
      NoEarlier(times, b, a);
    }
  }

  /** On an exact hit both searches give that block; otherwise the last block before is just before the first after. */
  lemma BoundariesMeet(times: seq<int>, t: int, first: nat, last: nat)
    requires Increasing(times) && IsFirst(times, t, first) && IsLast(times, t, last)
    ensures if times[first] == t then last == first else first == last + 1
  {
    if last < first {
      NoEarlier(times, last, first - 1);
    } else {
      NoEarlier(times, first, last);
    }
  }
}
