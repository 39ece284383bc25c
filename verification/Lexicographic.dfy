/** Dictionary order over any element order. */
module Lexicographic {

  /** `x` and `y` agree before `i`, and there `x` ends or is smaller. */
  predicate FirstDifference<T(==)>(less: (T, T) -> bool, x: seq<T>, y: seq<T>, i: nat) {
    i <= |x| && i < |y| && x[..i] == y[..i] && (i == |x| || less(x[i], y[i]))
  }

  ghost predicate Before<T>(less: (T, T) -> bool, x: seq<T>, y: seq<T>) {
    exists i :: FirstDifference(less, x, y, i)
  }

  ghost predicate StrictTotal<T(!new)>(less: (T, T) -> bool) {
    && (forall x :: !less(x, x))
    && (forall x, y :: less(x, y) || x == y || less(y, x))
    && (forall x, y, z :: less(x, y) && less(y, z) ==> less(x, z))
  }

  lemma BeforeEmpty<T>(less: (T, T) -> bool, x: seq<T>, y: seq<T>)
    requires x == [] || y == []
    ensures Before(less, x, y) <==> x == [] && y != []
  {
    if x == [] && y != [] {
      assert FirstDifference(less, x, y, 0);
    }
  }

  lemma BeforeStep<T(!new)>(less: (T, T) -> bool, x: seq<T>, y: seq<T>)
    requires x != [] && y != [] && !less(x[0], x[0])
    ensures Before(less, x, y) <==> less(x[0], y[0]) || (x[0] == y[0] && Before(less, x[1..], y[1..]))
  {
    if less(x[0], y[0]) {
      assert FirstDifference(less, x, y, 0);
    }
    if x[0] == y[0] && Before(less, x[1..], y[1..]) {
      var i: nat :| FirstDifference(less, x[1..], y[1..], i);
      assert x[..i + 1] == [x[0]] + x[1..][..i] && y[..i + 1] == [y[0]] + y[1..][..i];
      assert FirstDifference(less, x, y, i + 1);
    }
    if Before(less, x, y) && !less(x[0], y[0]) {
      var i: nat :| FirstDifference(less, x, y, i);
      assert i > 0 && x[..i][0] == x[0] && y[..i][0] == y[0];
      assert x[1..][..i - 1] == x[..i][1..] && y[1..][..i - 1] == y[..i][1..];
      assert FirstDifference(less, x[1..], y[1..], i - 1);
    }
  }

  lemma {:induction false} Irreflexive<T(!new)>(less: (T, T) -> bool, x: seq<T>)
    requires StrictTotal(less)
    ensures !Before(less, x, x)
    decreases |x|
  {
    if x == [] {
      BeforeEmpty(less, x, x);
    } else {
      BeforeStep(less, x, x);
      Irreflexive(less, x[1..]);
    }
  }

  lemma {:induction false} Trichotomous<T(!new)>(less: (T, T) -> bool, x: seq<T>, y: seq<T>)
    requires StrictTotal(less)
    ensures Before(less, x, y) || x == y || Before(less, y, x)
    decreases |x|
  {
    if x == [] || y == [] {
      BeforeEmpty(less, x, y);
      BeforeEmpty(less, y, x);
    } else {
      BeforeStep(less, x, y);
      BeforeStep(less, y, x);
      Trichotomous(less, x[1..], y[1..]);
      assert x == [x[0]] + x[1..] && y == [y[0]] + y[1..];
    }
  }

  lemma {:induction false} Transitive<T(!new)>(less: (T, T) -> bool, x: seq<T>, y: seq<T>, z: seq<T>)
    requires StrictTotal(less) && Before(less, x, y) && Before(less, y, z)
    ensures Before(less, x, z)
    decreases |y|
  {
    if x == [] || y == [] || z == [] {
      BeforeEmpty(less, x, z);
      if y == [] { BeforeEmpty(less, x, y); } else if z == [] { BeforeEmpty(less, y, z); }
    } else {
      BeforeStep(less, x, y);
      BeforeStep(less, y, z);
      BeforeStep(less, x, z);
      if x[0] == y[0] == z[0] {
        Transitive(less, x[1..], y[1..], z[1..]);
      }
    }
  }
}
