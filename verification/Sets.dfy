/**
 * Counting finite sets: subsets are no larger, two subsets of a set that together have more elements than the set
 * have one in common, and when any two subsets of given sizes do. Successes of reads and writes are such subsets of
 * the instances of a replication set, and of the zones of a ring. None of this is about the ring itself.
 */
module Sets {

  lemma {:induction false} SubsetIsSmaller<T>(a: set<T>, b: set<T>)
    requires a <= b
    ensures |a| <= |b|
  {
    assert b == a + (b - a);
  }

  lemma SplitSet<T>(a: set<T>, b: set<T>)
    ensures |a| == |a * b| + |a - b|
    ensures |a + b| == |b| + |a - b|
  {
    assert a == (a * b) + (a - b);
    assert a + b == b + (a - b);
  }

  lemma {:induction false} PickSubset<T>(s: set<T>, n: nat) returns (r: set<T>)
    requires n <= |s|
    ensures r <= s && |r| == n
  {
    if n == 0 {
      r := {};
    } else {
      var x :| x in s;
      var rest := PickSubset(s - {x}, n - 1);
      r := rest + {x};
    }
  }

  /** Any a-subset of x meets any b-subset of y. */
  ghost predicate AlwaysMeet<T(!new)>(x: set<T>, y: set<T>, a: int, b: int) {
    forall p, q :: p <= x && q <= y && |p| >= a && |q| >= b ==> p * q != {}
  }

  lemma TooManyToMiss<T>(x: set<T>, y: set<T>, p: set<T>, q: set<T>)
    requires p <= x && q <= y && |p| + |q| > |x + y|
    ensures p * q != {}
  {
    assert p + q <= x + y;
    SubsetIsSmaller(p + q, x + y);
    assert p * q == {} ==> |p + q| == |p| + |q|;
  }

  lemma FewEnoughToMiss<T>(x: set<T>, y: set<T>, a: nat, b: nat) returns (p: set<T>, q: set<T>)
    requires a <= |x| && b <= |y| && a + b <= |x + y|
    ensures p <= x && q <= y && |p| == a && |q| == b && p * q == {}
  {
    SplitSet(x, y);
    SplitSet(y, x);
    if a <= |x - y| {
      p := PickSubset(x - y, a);
      q := PickSubset(y, b);
    } else {
      var common := PickSubset(x * y, a - |x - y|);
      p := (x - y) + common;
      SplitSet(y, common);
      assert y * common == common;
      q := PickSubset(y - common, b);
    }
  }

  /** The pigeonhole principle, both ways. */
  lemma AlwaysMeetExactly<T(!new)>(x: set<T>, y: set<T>, a: nat, b: nat)
    requires a <= |x| && b <= |y|
    ensures AlwaysMeet(x, y, a, b) <==> a + b > |x + y|
  {
    if a + b > |x + y| {
      forall p, q | p <= x && q <= y && |p| >= a && |q| >= b ensures p * q != {} {
        TooManyToMiss(x, y, p, q);
      }
    } else {
      var p, q := FewEnoughToMiss(x, y, a, b);
    }
  }

  function Below(n: nat): (r: set<nat>)
    ensures forall i: nat :: i in r <==> i < n
  {
    if n == 0 then {} else Below(n - 1) + {n - 1}
  }

  lemma {:induction false} CountBelow(n: nat)
    ensures |Below(n)| == n
  {
    if n > 0 {
      CountBelow(n - 1);
    }
  }

  // ---------------------------------------------------------------- sums over sets

  ghost function SumOver<T(!new)>(xs: set<T>, count: T -> nat): nat {
    if xs == {} then 0
    else
      var x :| x in xs;
      count(x) + SumOver(xs - {x}, count)
  }

  lemma {:induction false} SumWithout<T(!new)>(xs: set<T>, count: T -> nat, x: T)
    requires x in xs
    ensures SumOver(xs, count) == count(x) + SumOver(xs - {x}, count)
  {
    var first :| first in xs && SumOver(xs, count) == count(first) + SumOver(xs - {first}, count);
    if first != x {
      SumWithout(xs - {first}, count, x);
      SumWithout(xs - {x}, count, first);
      assert xs - {first} - {x} == xs - {x} - {first};
    }
  }

  lemma SumOfTwo<T(!new)>(x: T, y: T, count: T -> nat)
    requires x != y
    ensures SumOver({x, y}, count) == count(x) + count(y)
  {
    SumWithout({x, y}, count, x);
    SumWithout({y}, count, y);
    assert {x, y} - {x} == {y} && {y} - {y} == {};
  }

  lemma {:induction false} SumsAgree<T(!new)>(xs: set<T>, a: T -> nat, b: T -> nat)
    requires forall x :: x in xs ==> a(x) == b(x)
    ensures SumOver(xs, a) == SumOver(xs, b)
  {
    if xs != {} {
      var x :| x in xs;
      SumWithout(xs, a, x);
      SumWithout(xs, b, x);
      SumsAgree(xs - {x}, a, b);
    }
  }

  lemma {:induction false} SumOfZeros<T(!new)>(xs: set<T>, count: T -> nat)
    requires forall x :: x in xs ==> count(x) == 0
    ensures SumOver(xs, count) == 0
  {
    if xs != {} {
      var x :| x in xs;
      SumWithout(xs, count, x);
      SumOfZeros(xs - {x}, count);
    }
  }

  /** The elements that f assigns to t. */
  ghost function Part<X(!new), T(!new)>(xs: set<X>, f: X -> T, t: T): set<X> {
    set x | x in xs && f(x) == t
  }

  lemma {:induction false} PartsAddUp<X(!new), T(!new)>(xs: set<X>, f: X -> T, ts: set<T>, count: T -> nat)
    requires forall x :: x in xs ==> f(x) in ts
    requires forall t :: t in ts ==> count(t) == |Part(xs, f, t)|
    ensures SumOver(ts, count) == |xs|
  {
    if ts == {} {
      assert xs == {};
    } else {
      var t :| t in ts;
      var rest := xs - Part(xs, f, t);
      forall u | u in ts - {t} ensures count(u) == |Part(rest, f, u)| {
        assert Part(rest, f, u) == Part(xs, f, u);
      }
      PartsAddUp(rest, f, ts - {t}, count);
      SumWithout(ts, count, t);
      assert |rest| == |xs| - |Part(xs, f, t)|;
    }
  }
}
