/** Python's `sorted`: a stable sort under an explicit order. */
module Sorting {
  ghost predicate TotalPreorder<T(!new)>(le: (T, T) -> bool) {
    && (forall x, y :: le(x, y) || le(y, x))
    && (forall x, y, z :: le(x, y) && le(y, z) ==> le(x, z))
  }

  ghost predicate Sorted<T>(s: seq<T>, le: (T, T) -> bool) {
    forall i, j | 0 <= i < j < |s| :: le(s[i], s[j])
  }

  predicate Distinct<T(==)>(s: seq<T>) {
    forall i, j | 0 <= i < j < |s| :: s[i] != s[j]
  }

  /** The first place where `x` stands. */
  function IndexOf<T(==)>(s: seq<T>, x: T): (i: nat)
    requires x in s
    ensures i < |s| && s[i] == x && x !in s[..i]
  {
    if s[0] == x then 0 else 1 + IndexOf(s[1..], x)
  }

  lemma IndexOfDistinct<T>(s: seq<T>, i: nat)
    requires Distinct(s) && i < |s|
    ensures IndexOf(s, s[i]) == i
  {
    var j := IndexOf(s, s[i]);
    assert s[j] == s[i];
  }

  function Insert<T>(x: T, s: seq<T>, le: (T, T) -> bool): (r: seq<T>)
    ensures multiset(r) == multiset(s) + multiset{x}
    ensures |r| == |s| + 1
  {
    if s == [] then [x]
    else if le(x, s[0]) then [x] + s
    else
      assert s == [s[0]] + s[1..];
      [s[0]] + Insert(x, s[1..], le)
  }

  function Sort<T>(s: seq<T>, le: (T, T) -> bool): (r: seq<T>)
    ensures multiset(r) == multiset(s)
    ensures |r| == |s|
  {
    if s == [] then [] else
      assert s == [s[0]] + s[1..];
      Insert(s[0], Sort(s[1..], le), le)
  }

  lemma {:induction false} SameElements<T>(a: seq<T>, b: seq<T>)
    requires multiset(a) == multiset(b)
    ensures |a| == |b|
    ensures forall x :: x in a <==> x in b
  {
    assert |multiset(a)| == |a| && |multiset(b)| == |b|;
    forall x ensures x in a <==> x in b {
      assert x in a <==> x in multiset(a);
      assert x in b <==> x in multiset(b);
    }
  }

  lemma {:induction false} InsertSorted<T(!new)>(x: T, s: seq<T>, le: (T, T) -> bool)
    requires TotalPreorder(le) && Sorted(s, le)
    ensures Sorted(Insert(x, s, le), le)
  {
    if s == [] {
    } else if le(x, s[0]) {
      var r := [x] + s;
      forall i, j | 0 <= i < j < |r| ensures le(r[i], r[j]) {
        if i == 0 && j > 1 {
          assert le(s[0], s[j - 1]);
        }
      }
    } else {
      InsertSorted(x, s[1..], le);
      var tail := Insert(x, s[1..], le);
      SameElements(tail, s[1..] + [x]);
      forall j | 0 <= j < |tail| ensures le(s[0], tail[j]) {
        assert tail[j] in s[1..] + [x];
      }
    }
  }

  lemma {:induction false} SortSorted<T(!new)>(s: seq<T>, le: (T, T) -> bool)
    requires TotalPreorder(le)
    ensures Sorted(Sort(s, le), le)
  {
    if s != [] {
      SortSorted(s[1..], le);
      InsertSorted(s[0], Sort(s[1..], le), le);
    }
  }

  lemma {:induction false} DistinctPermutation<T>(a: seq<T>, b: seq<T>)
    requires multiset(a) == multiset(b) && Distinct(a)
    ensures Distinct(b)
  {
    DistinctCounts(a);
    forall i, j | 0 <= i < j < |b| ensures b[i] != b[j] {
      assert b == b[..i] + [b[i]] + b[i + 1..j] + [b[j]] + b[j + 1..];
      assert multiset(b)[b[i]] <= 1;
    }
  }

  lemma {:induction false} DistinctCounts<T>(a: seq<T>)
    requires Distinct(a)
    ensures forall x :: multiset(a)[x] <= 1
  {
    if a != [] {
      DistinctCounts(a[1..]);
      assert a == [a[0]] + a[1..];
      assert a[0] !in a[1..];
    }
  }

  /** A sorted sequence is determined by its elements when the order is antisymmetric. */
  lemma {:induction false} SortedUnique<T(!new)>(a: seq<T>, b: seq<T>, le: (T, T) -> bool)
    requires TotalPreorder(le) && (forall x, y :: le(x, y) && le(y, x) ==> x == y)
    requires multiset(a) == multiset(b) && Sorted(a, le) && Sorted(b, le)
    ensures a == b
    decreases |a|
  {
    SameElements(a, b);
    if a != [] {
      assert a[0] == b[0] by {
        assert a[0] in b && b[0] in a;
        assert le(a[0], b[0]) && le(b[0], a[0]);
      }
      TailMultiset(a);
      TailMultiset(b);
      SortedUnique(a[1..], b[1..], le);
    }
  }

  lemma TailMultiset<T>(s: seq<T>)
    requires s != []
    ensures multiset(s[1..]) == multiset(s) - multiset{s[0]}
  {
    assert s == [s[0]] + s[1..];
  }

  /** `a` stands before `b` in `s`. */
  ghost predicate Before<T>(s: seq<T>, a: T, b: T) {
    exists i, j :: 0 <= i < j < |s| && s[i] == a && s[j] == b
  }

  lemma {:induction false} BeforeTail<T>(s: seq<T>, a: T, b: T)
    requires s != [] && Distinct(s) && Before(s, a, b)
    ensures a == s[0] ==> b in s[1..]
    ensures a != s[0] ==> Before(s[1..], a, b)
  {
    var i, j :| 0 <= i < j < |s| && s[i] == a && s[j] == b;
    assert s[j] == s[1..][j - 1];
    if i > 0 {
      assert s[i] == s[1..][i - 1];
    }
  }

  lemma {:induction false} BeforeCons<T>(x: T, s: seq<T>, a: T, b: T)
    requires Before(s, a, b) || (a == x && b in s)
    ensures Before([x] + s, a, b)
  {
    var r := [x] + s;
    if Before(s, a, b) {
      var i, j :| 0 <= i < j < |s| && s[i] == a && s[j] == b;
      assert r[i + 1] == a && r[j + 1] == b;
    } else {
      var j :| 0 <= j < |s| && s[j] == b;
      assert r[0] == a && r[j + 1] == b;
    }
  }

  lemma {:induction false} InsertKeepsOrder<T>(x: T, s: seq<T>, le: (T, T) -> bool, a: T, b: T)
    requires Distinct(s) && Before(s, a, b)
    ensures Before(Insert(x, s, le), a, b)
  {
    var i, j :| 0 <= i < j < |s| && s[i] == a && s[j] == b;
    if le(x, s[0]) {
      BeforeCons(x, s, a, b);
    } else {
      BeforeTail(s, a, b);
      SameElements(Insert(x, s[1..], le), s[1..] + [x]);
      if a != s[0] {
        InsertKeepsOrder(x, s[1..], le, a, b);
      }
      BeforeCons(s[0], Insert(x, s[1..], le), a, b);
    }
  }

  lemma {:induction false} InsertBefore<T>(x: T, s: seq<T>, le: (T, T) -> bool, b: T)
    requires b in s && le(x, b)
    ensures Before(Insert(x, s, le), x, b)
  {
    if le(x, s[0]) {
      BeforeCons(x, s, x, b);
    } else {
      InsertBefore(x, s[1..], le, b);
      BeforeCons(s[0], Insert(x, s[1..], le), x, b);
    }
  }

  /** The sort is stable: an element never passes an equal one that stood before it. */
  lemma {:induction false} SortStable<T>(s: seq<T>, le: (T, T) -> bool, a: T, b: T)
    requires Distinct(s) && Before(s, a, b) && le(a, b)
    ensures Before(Sort(s, le), a, b)
  {
    BeforeTail(s, a, b);
    SameElements(Sort(s[1..], le), s[1..]);
    if a == s[0] {
      InsertBefore(a, Sort(s[1..], le), le, b);
    } else {
      SortStable(s[1..], le, a, b);
      DistinctPermutation(s[1..], Sort(s[1..], le));
      InsertKeepsOrder(s[0], Sort(s[1..], le), le, a, b);
    }
  }
}
