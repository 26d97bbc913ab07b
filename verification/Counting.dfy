/** Counting facts about finite sets, used where a table or a log can run full. */
module Counting {

  /** The numbers from lo up to, not including, hi. */
  ghost function Interval(lo: nat, hi: nat): (r: set<nat>)
    ensures forall i: nat :: i in r <==> lo <= i < hi
    ensures |r| == if lo <= hi then hi - lo else 0
    decreases hi
  {
    if hi <= lo then {} else Interval(lo, hi - 1) + {hi - 1}
  }

  lemma {:induction false} SubsetSize<T>(a: set<T>, b: set<T>)
    requires a <= b
    ensures |a| <= |b|
  {
    if a != {} {
      var x :| x in a;
      SubsetSize(a - {x}, b - {x});
    }
  }

  ghost predicate Distinct<T>(xs: seq<T>) {
    forall i, j :: 0 <= i < j < |xs| ==> xs[i] != xs[j]
  }

  ghost function Elements<T(!new)>(xs: seq<T>): (r: set<T>)
    ensures forall x :: x in r <==> x in xs
  {
    if xs == [] then {} else Elements(xs[..|xs| - 1]) + {xs[|xs| - 1]}
  }

  lemma {:induction false} ElementsSize<T(!new)>(xs: seq<T>)
    requires Distinct(xs)
    ensures |Elements(xs)| == |xs|
  {
    if xs != [] { ElementsSize(xs[..|xs| - 1]); }
  }

  /** n distinct numbers below n are all the numbers below n. */
  lemma Surjective(xs: seq<nat>, n: nat, b: nat)
    requires |xs| == n && b < n && Distinct(xs)
    requires forall i :: 0 <= i < n ==> xs[i] < n
    ensures b in xs
  {
    ElementsSize(xs);
    assert Elements(xs) <= Interval(0, n);
    if b !in xs {
      SubsetSize(Elements(xs), Interval(0, n) - {b});
      assert false;
    }
  }

  /** Distinct numbers below n that avoid c are fewer than n. */
  lemma AvoidOne(xs: seq<nat>, n: nat, c: nat)
    requires Distinct(xs) && c < n
    requires forall i :: 0 <= i < |xs| ==> xs[i] < n && xs[i] != c
    ensures |xs| < n
  {
    ElementsSize(xs);
    SubsetSize(Elements(xs), Interval(0, n) - {c});
  }

  /** Distinct items drawn from others are no more than those. */
  lemma DrawnFrom<T(!new)>(xs: seq<T>, ys: seq<T>)
    requires Distinct(xs) && Distinct(ys) && forall i :: 0 <= i < |xs| ==> xs[i] in ys
    ensures |xs| <= |ys|
  {
    ElementsSize(xs);
    ElementsSize(ys);
    SubsetSize(Elements(xs), Elements(ys));
  }

  /** xs without its element i. */
  function Remove<T>(xs: seq<T>, i: nat): (r: seq<T>)
    requires i < |xs|
    ensures |r| == |xs| - 1
    ensures forall j :: 0 <= j < |r| ==> r[j] == if j < i then xs[j] else xs[j + 1]
  {
    xs[..i] + xs[i + 1..]
  }

  /** Two kinds of numbers below n, with none of both kinds, are all of them exactly when they are n. */
  lemma CoverIff(a: set<nat>, b: set<nat>, n: nat)
    requires a !! b && (forall i :: i in a ==> i < n) && (forall i :: i in b ==> i < n)
    ensures (forall i: nat :: i < n ==> i in a + b) <==> |a| + |b| == n
  {
    var both, all := a + b, Interval(0, n);
    assert |both| == |a| + |b|;
    SubsetSize(both, all);
    if i: nat :| i < n && i !in both {
      SubsetSize(both, all - {i});
    } else {
      SubsetSize(all, both);
    }
  }
}
