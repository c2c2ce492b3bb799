/** Sums of reals over sequences and over finite sets. */
module Sums {
  function Sum(s: seq<real>): real {
    if s == [] then 0.0 else s[0] + Sum(s[1..])
  }

  lemma {:induction false} SumAppend(a: seq<real>, b: seq<real>)
    ensures Sum(a + b) == Sum(a) + Sum(b)
  {
    if a == [] {
      assert a + b == b;
    } else {
      assert (a + b)[1..] == a[1..] + b;
      SumAppend(a[1..], b);
    }
  }

  lemma {:induction false} SumScale(s: seq<real>, t: seq<real>, k: real)
    requires |s| == |t| && forall i | 0 <= i < |s| :: t[i] == k * s[i]
    ensures Sum(t) == k * Sum(s)
  {
    if s != [] {
      SumScale(s[1..], t[1..], k);
    }
  }

  lemma {:induction false} SumNonNegative(s: seq<real>)
    requires forall i | 0 <= i < |s| :: s[i] >= 0.0
    ensures Sum(s) >= 0.0
    ensures forall i | 0 <= i < |s| :: s[i] <= Sum(s)
  {
    if s != [] {
      SumNonNegative(s[1..]);
      forall i | 0 <= i < |s| ensures s[i] <= Sum(s) {
        if i > 0 {
          assert s[i] == s[1..][i - 1];
        }
      }
    }
  }

  lemma {:induction false} SumUpdate(s: seq<real>, i: nat, x: real)
    requires i < |s|
    ensures Sum(s[i := x]) == Sum(s) - s[i] + x
  {
    if i > 0 {
      assert s[i := x][1..] == s[1..][i - 1 := x];
      SumUpdate(s[1..], i - 1, x);
    } else {
      assert s[i := x][1..] == s[1..];
    }
  }

  /** Removing the element at `i` takes its value off the sum. */
  lemma {:induction false} SumRemove(s: seq<real>, i: nat)
    requires i < |s|
    ensures Sum(s) == s[i] + Sum(s[..i] + s[i + 1..])
  {
    SumAppend(s[..i], s[i..]);
    SumAppend(s[..i], s[i + 1..]);
    assert s == s[..i] + s[i..];
    assert s[i..][1..] == s[i + 1..];
  }

  lemma {:induction false} MatchHead<T>(a: seq<T>, b: seq<T>) returns (i: nat)
    requires a != [] && multiset(a) == multiset(b)
    ensures i < |b| && b[i] == a[0]
    ensures multiset(a[1..]) == multiset(b[..i] + b[i + 1..])
  {
    assert a == [a[0]] + a[1..];
    assert a[0] in multiset(b);
    i :| 0 <= i < |b| && b[i] == a[0];
    assert b == b[..i] + [b[i]] + b[i + 1..];
    assert multiset(a[1..]) == multiset(a) - multiset{a[0]};
  }

  /** A sum does not depend on the order of its terms. */
  lemma {:induction false} SumPermutation(a: seq<real>, b: seq<real>)
    requires multiset(a) == multiset(b)
    ensures Sum(a) == Sum(b)
    decreases |a|
  {
    if a == [] {
      assert |multiset(b)| == |b|;
    } else {
      var i := MatchHead(a, b);
      SumPermutation(a[1..], b[..i] + b[i + 1..]);
      SumRemove(b, i);
    }
  }

  ghost function SumSet<T>(s: set<T>, f: T -> real): real {
    if s == {} then 0.0 else
      var x :| x in s;
      f(x) + SumSet(s - {x}, f)
  }

  lemma {:induction false} SumSetRemove<T>(s: set<T>, f: T -> real, x: T)
    requires x in s
    ensures SumSet(s, f) == f(x) + SumSet(s - {x}, f)
  {
    var y :| y in s && SumSet(s, f) == f(y) + SumSet(s - {y}, f);
    if y != x {
      SumSetRemove(s - {y}, f, x);
      SumSetRemove(s - {x}, f, y);
      assert s - {y} - {x} == s - {x} - {y};
    }
  }

  lemma {:induction false} SumSetUnion<T>(a: set<T>, b: set<T>, f: T -> real)
    requires a !! b
    ensures SumSet(a + b, f) == SumSet(a, f) + SumSet(b, f)
  {
    if a == {} {
      assert a + b == b;
    } else {
      var x :| x in a;
      SumSetRemove(a, f, x);
      SumSetRemove(a + b, f, x);
      assert a + b - {x} == (a - {x}) + b;
      SumSetUnion(a - {x}, b, f);
    }
  }

  lemma {:induction false} SumSetCongruent<T>(s: set<T>, f: T -> real, g: T -> real)
    requires forall x | x in s :: f(x) == g(x)
    ensures SumSet(s, f) == SumSet(s, g)
  {
    if s != {} {
      var x :| x in s;
      SumSetRemove(s, f, x);
      SumSetRemove(s, g, x);
      SumSetCongruent(s - {x}, f, g);
    }
  }

  /** Errors of at most one half each add up to at most half their number. */
  lemma {:induction false} SumSetOfHalves<T>(s: set<T>, f: T -> real)
    requires forall x | x in s :: -0.5 <= f(x) <= 0.5
    ensures -0.5 * |s| as real <= SumSet(s, f) <= 0.5 * |s| as real
  {
    if s != {} {
      var x :| x in s;
      SumSetRemove(s, f, x);
      SumSetOfHalves(s - {x}, f);
      assert |s| == |s - {x}| + 1;
    }
  }

  lemma {:induction false} SumSetNonNegative<T>(s: set<T>, f: T -> real)
    requires forall x | x in s :: f(x) >= 0.0
    ensures SumSet(s, f) >= 0.0
    ensures forall x | x in s :: f(x) <= SumSet(s, f)
  {
    if s != {} {
      var x :| x in s;
      SumSetRemove(s, f, x);
      SumSetNonNegative(s - {x}, f);
    }
  }

  lemma ProductNotNegative(a: real, b: real)
    requires a >= 0.0 && b >= 0.0
    ensures a * b >= 0.0
  {
  }

  lemma ProductInOrder(k: real, x: real, y: real)
    requires k >= 0.0 && x <= y
    ensures k * x <= k * y
  {
    ProductNotNegative(k, y - x);
    assert k * (y - x) == k * y - k * x;
  }

  ghost predicate Scales(a: real, k: real, b: real) {
    a * k == b
  }

  lemma ScalesAdd(a: real, b: real, c: real, d: real, k: real, ac: real, bd: real)
    requires Scales(a, k, b) && Scales(c, k, d) && ac == a + c && bd == b + d
    ensures Scales(ac, k, bd)
  {
  }

  lemma {:induction false} SumSetScale<T>(s: set<T>, f: T -> real, g: T -> real, k: real)
    requires forall x | x in s :: Scales(f(x), k, g(x))
    ensures Scales(SumSet(s, f), k, SumSet(s, g))
  {
    if s != {} {
      var x :| x in s;
      var rest := s - {x};
      SumSetScale(rest, f, g, k);
      ScaledHead(s, f, g, k, x);
    }
  }

  lemma ScaledHead<T>(s: set<T>, f: T -> real, g: T -> real, k: real, x: T)
    requires x in s && Scales(f(x), k, g(x)) && Scales(SumSet(s - {x}, f), k, SumSet(s - {x}, g))
    ensures Scales(SumSet(s, f), k, SumSet(s, g))
  {
    SumSetRemove(s, f, x);
    SumSetRemove(s, g, x);
    ScalesAdd(f(x), g(x), SumSet(s - {x}, f), SumSet(s - {x}, g), k, SumSet(s, f), SumSet(s, g));
  }

  /** Summing a sequence of distinct elements is summing the set of them. */
  lemma {:induction false} SumSeqAsSet<T>(s: seq<T>, t: seq<real>, f: T -> real)
    requires |s| == |t| && (forall i | 0 <= i < |s| :: t[i] == f(s[i]))
    requires forall i, j | 0 <= i < j < |s| :: s[i] != s[j]
    ensures Sum(t) == SumSet((set x | x in s), f)
  {
    if s == [] {
      assert (set x | x in s) == {};
    } else {
      SumSeqAsSet(s[1..], t[1..], f);
      SumSetRemove((set x | x in s), f, s[0]);
      assert (set x | x in s) - {s[0]} == (set x | x in s[1..]);
    }
  }

  lemma {:induction false} SumSetDifference<T>(s: set<T>, f: T -> real, g: T -> real, d: T -> real)
    requires forall x | x in s :: d(x) == f(x) - g(x)
    ensures SumSet(s, d) == SumSet(s, f) - SumSet(s, g)
  {
    if s != {} {
      var x :| x in s;
      SumSetRemove(s, f, x);
      SumSetRemove(s, g, x);
      SumSetRemove(s, d, x);
      SumSetDifference(s - {x}, f, g, d);
    }
  }
}
