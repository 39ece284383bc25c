/** Lists without repetition, in the order of first appearance. */
module Occurrences {

  function Firsts<T(==,!new)>(xs: seq<T>): (r: seq<T>)
    ensures forall x :: x in r <==> x in xs
    ensures forall i, j :: 0 <= i < j < |r| ==> r[i] != r[j]
  {
    if xs == [] then []
    else
      var front, last := xs[..|xs| - 1], xs[|xs| - 1];
      assert forall x :: x in xs <==> x in front || x == last;
      if last in Firsts(front) then Firsts(front) else Firsts(front) + [last]
  }

  /** What a prefix contributes comes first. */
  lemma {:induction false} FirstsOfPrefix<T(!new)>(xs: seq<T>, k: nat)
    requires k <= |xs|
    ensures Firsts(xs[..k]) <= Firsts(xs)
    decreases |xs|
  {
    if k == |xs| {
      assert xs[..k] == xs;
    } else {
      assert xs[..|xs| - 1][..k] == xs[..k];
      FirstsOfPrefix(xs[..|xs| - 1], k);
    }
  }

  function Filter<T(!new)>(xs: seq<T>, p: T -> bool): (r: seq<T>)
    ensures forall x :: x in r <==> x in xs && p(x)
    ensures |r| <= |xs|
  {
    if xs == [] then []
    else
      var rest := Filter(xs[1..], p);
      assert forall x :: x in xs <==> x == xs[0] || x in xs[1..];
      if p(xs[0]) then [xs[0]] + rest else rest
  }

  /** The head of a stable descending sort by `size`. */
  function FirstLargest<T(!new)>(xs: seq<T>, size: T -> nat): (r: T)
    requires xs != []
    ensures r in xs && forall x :: x in xs ==> size(x) <= size(r)
  {
    if |xs| == 1 then xs[0]
    else
      var rest := FirstLargest(xs[1..], size);
      assert forall x :: x in xs <==> x == xs[0] || x in xs[1..];
      if size(xs[0]) >= size(rest) then xs[0] else rest
  }

  lemma {:induction false} LargestOfCons<T(!new)>(x: T, rest: seq<T>, size: T -> nat)
    requires rest != []
    ensures FirstLargest([x] + rest, size)
         == if size(x) >= size(FirstLargest(rest, size)) then x else FirstLargest(rest, size)
  {
    assert ([x] + rest)[1..] == rest;
  }

  /** Which element it is among those a filter keeps: no other is larger, and those before it are smaller. */
  lemma {:induction false} LargestOfFilter<T(!new)>(xs: seq<T>, p: T -> bool, size: T -> nat) returns (i: nat)
    requires Filter(xs, p) != []
    ensures i < |xs| && p(xs[i]) && xs[i] == FirstLargest(Filter(xs, p), size)
    ensures forall j :: 0 <= j < i && p(xs[j]) ==> size(xs[j]) < size(xs[i])
  {
    var rest := Filter(xs[1..], p);
    if rest == [] {
      i := 0;
    } else {
      var k := LargestOfFilter(xs[1..], p, size);
      i := k + 1;
      if p(xs[0]) {
        LargestOfCons(xs[0], rest, size);
        if size(xs[0]) >= size(xs[i]) { i := 0; }
      }
    }
  }
}
