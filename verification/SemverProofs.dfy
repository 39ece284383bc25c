/** What `compareSemver` of src/shared/semver.ts decides, and when that is precedence. */
module SemverProofs {
  import opened Options
  import opened Decimals
  import opened Texts
  import opened Semver
  import opened Precedence
  import L = Lexicographic

  // ---------------------------------------------------------------- all strings

  lemma {:induction false} GreaterAntisymmetric(x: Text, y: Text)
    requires x != y
    ensures Greater(x, y) <==> !Greater(y, x)
  {
    if x != [] && y != [] && x[0] == y[0] {
      assert x == [x[0]] + x[1..] && y == [y[0]] + y[1..];
      GreaterAntisymmetric(x[1..], y[1..]);
    }
  }

  lemma IdentifierAntisymmetric(x: Text, y: Text)
    ensures IdentifierOrder(x, y) == -IdentifierOrder(y, x)
  {
    if x != y {
      GreaterAntisymmetric(x, y);
    }
  }

  lemma {:induction false} PreAntisymmetric(p: seq<Text>, q: seq<Text>)
    ensures PreOrder(p, q) == -PreOrder(q, p)
  {
    if p != [] && q != [] {
      IdentifierAntisymmetric(p[0], q[0]);
      PreAntisymmetric(p[1..], q[1..]);
    }
  }

  lemma {:induction false} CoreAntisymmetric(p: seq<Number>, q: seq<Number>, i: nat)
    ensures CoreOrder(q, p, i) == match CoreOrder(p, q, i) case None => None case Some(r) => Some(-r)
    decreases 3 - i
  {
    if i < 3 {
      CoreAntisymmetric(p, q, i + 1);
    }
  }

  /** Swapping the arguments negates the result, for all strings whatever. */
  lemma Antisymmetric(a: Text, b: Text)
    ensures Compare(a, b) == -Compare(b, a)
  {
    CoreAntisymmetric(Parse(a).core, Parse(b).core, 0);
    PreAntisymmetric(Parse(a).pre, Parse(b).pre);
  }

  /** Some component among the first three is neither missing nor a numeral. */
  predicate Unorderable(v: Text) {
    exists i :: 0 <= i < 3 && Component(Parse(v).core, i).NaN?
  }

  predicate Blocked(p: seq<Number>, q: seq<Number>, i: nat) {
    Component(p, i).NaN? || Component(q, i).NaN?
  }

  predicate Agrees(p: seq<Number>, q: seq<Number>, i: nat) {
    Component(p, i) == Component(q, i)
  }

  lemma {:induction false} BlockedOrder(p: seq<Number>, q: seq<Number>, i: nat, k: nat)
    requires i <= k < 3 && Blocked(p, q, k) && forall j :: i <= j < k ==> !Blocked(p, q, j)
    ensures CoreOrder(p, q, i).Some?
    ensures CoreOrder(p, q, i) == Some(0) <==> forall j :: i <= j < k ==> Agrees(p, q, j)
    decreases k - i
  {
    if i < k {
      BlockedOrder(p, q, i + 1, k);
      assert !Blocked(p, q, i);
      if !Agrees(p, q, i) {
        assert Component(p, i).n != Component(q, i).n;
      }
    }
  }

  /** When a core does not parse, the strings tie exactly if every component before the first bad one agrees. */
  lemma UnparseableTie(a: Text, b: Text, k: nat)
    requires k < 3 && Blocked(Parse(a).core, Parse(b).core, k)
    requires forall j :: 0 <= j < k ==> !Blocked(Parse(a).core, Parse(b).core, j)
    ensures Compare(a, b) == 0 <==> forall j :: 0 <= j < k ==> Agrees(Parse(a).core, Parse(b).core, j)
  {
    BlockedOrder(Parse(a).core, Parse(b).core, 0, k);
  }

  // ---------------------------------------------------------------- orderable strings

  function IdentifierOf(s: Text): Identifier {
    if IsNumeric(s) then Numeric(ParseInt(s)) else Alphanumeric(s)
  }

  function Identifiers(p: seq<Text>): (ids: seq<Identifier>)
    ensures |ids| == |p| && forall i :: 0 <= i < |p| ==> ids[i] == IdentifierOf(p[i])
  {
    seq(|p|, i requires 0 <= i < |p| => IdentifierOf(p[i]))
  }

  function CoreOf(v: Text): (core: seq<nat>)
    requires !Unorderable(v)
    ensures |core| == 3
  {
    var p := Parse(v).core;
    assert Component(p, 0).Num? && Component(p, 1).Num? && Component(p, 2).Num?;
    [Component(p, 0).n, Component(p, 1).n, Component(p, 2).n]
  }

  /** The version a string stands for. */
  function Read(v: Text): Version
    requires !Unorderable(v)
  {
    Version(CoreOf(v), Identifiers(Parse(v).pre))
  }

  lemma {:induction false} GreaterIsBefore(x: Text, y: Text)
    ensures Greater(x, y) <==> L.Before(UnitLess, y, x)
  {
    if x == [] || y == [] {
      L.BeforeEmpty(UnitLess, y, x);
    } else {
      L.BeforeStep(UnitLess, y, x);
      GreaterIsBefore(x[1..], y[1..]);
    }
  }

  lemma IdentifierAgrees(x: Text, y: Text)
    ensures IdentifierOrder(x, y) == (if IdentifierOf(x) == IdentifierOf(y) then 0
                                      else if IdentifierLess(IdentifierOf(x), IdentifierOf(y)) then -1 else 1)
  {
    if !IsNumeric(x) && !IsNumeric(y) && x != y {
      GreaterAntisymmetric(x, y);
      GreaterIsBefore(y, x);
    }
  }

  lemma {:induction false} PreAgrees(p: seq<Text>, q: seq<Text>)
    ensures PreOrder(p, q) == (if Identifiers(p) == Identifiers(q) then 0
                               else if L.Before(IdentifierLess, Identifiers(p), Identifiers(q)) then -1 else 1)
  {
    var ps, qs := Identifiers(p), Identifiers(q);
    if p == [] || q == [] {
      L.BeforeEmpty(IdentifierLess, ps, qs);
    } else {
      IdentifiersTotal();
      L.BeforeStep(IdentifierLess, ps, qs);
      IdentifierAgrees(p[0], q[0]);
      PreAgrees(p[1..], q[1..]);
      assert ps == [ps[0]] + ps[1..] && qs == [qs[0]] + qs[1..];
      assert ps[1..] == Identifiers(p[1..]) && qs[1..] == Identifiers(q[1..]);
    }
  }

  /** The core comparison, on components that are all numbers. */
  lemma {:induction false} CoreAgrees(p: seq<Number>, q: seq<Number>, cs: seq<nat>, ds: seq<nat>, i: nat)
    requires i <= 3 && |cs| == 3 && |ds| == 3
    requires forall j :: 0 <= j < 3 ==> Component(p, j) == Num(cs[j]) && Component(q, j) == Num(ds[j])
    ensures CoreOrder(p, q, i) == (if cs[i..] == ds[i..] then None
                                   else if L.Before(NatLess, cs[i..], ds[i..]) then Some(-1) else Some(1))
    decreases 3 - i
  {
    if i < 3 {
      assert Component(p, i) == Num(cs[i]) && Component(q, i) == Num(ds[i]);
      L.BeforeStep(NatLess, cs[i..], ds[i..]);
      CoreAgrees(p, q, cs, ds, i + 1);
      assert cs[i..] == [cs[i]] + cs[i + 1..] && ds[i..] == [ds[i]] + ds[i + 1..];
    }
  }

  /** On orderable strings `compareSemver` is precedence: equal, lower or higher. */
  lemma RefinesPrecedence(a: Text, b: Text)
    requires !Unorderable(a) && !Unorderable(b)
    ensures Compare(a, b) == (if Read(a) == Read(b) then 0 else if Lower(Read(a), Read(b)) then -1 else 1)
    ensures Compare(a, b) == 1 <==> Lower(Read(b), Read(a))
  {
    Ordered(a, b);
    LowerTotal(Read(a), Read(b));
    LowerTotal(Read(b), Read(a));
    if Lower(Read(a), Read(b)) && Lower(Read(b), Read(a)) {
      LowerTransitive(Read(a), Read(b), Read(a));
    }
  }

  lemma Ordered(a: Text, b: Text)
    requires !Unorderable(a) && !Unorderable(b)
    ensures Compare(a, b) == (if Read(a) == Read(b) then 0 else if Lower(Read(a), Read(b)) then -1 else 1)
  {
    var cs, ds := CoreOf(a), CoreOf(b);
    var p, q := Parse(a), Parse(b);
    assert Component(p.core, 0) == Num(cs[0]) && Component(p.core, 1) == Num(cs[1])
           && Component(p.core, 2) == Num(cs[2]);
    assert Component(q.core, 0) == Num(ds[0]) && Component(q.core, 1) == Num(ds[1])
           && Component(q.core, 2) == Num(ds[2]);
    CoreAgrees(p.core, q.core, cs, ds, 0);
    assert cs[0..] == cs && ds[0..] == ds;
    PreAgrees(p.pre, q.pre);
    NatsTotal();
    L.Irreflexive(NatLess, cs);
  }

  /** So on orderable strings it is a total preorder. */
  lemma Transitive(a: Text, b: Text, c: Text)
    requires !Unorderable(a) && !Unorderable(b) && !Unorderable(c)
    requires Compare(a, b) <= 0 && Compare(b, c) <= 0
    ensures Compare(a, c) <= 0
    ensures Compare(a, c) == 0 ==> Compare(a, b) == 0 && Compare(b, c) == 0
  {
    RefinesPrecedence(a, b);
    RefinesPrecedence(b, c);
    RefinesPrecedence(a, c);
    if Lower(Read(a), Read(b)) && Lower(Read(b), Read(c)) {
      LowerTransitive(Read(a), Read(b), Read(c));
    }
    LowerTotal(Read(a), Read(c));
    LowerTotal(Read(b), Read(c));
  }

  lemma OnePart(c: Unit)
    requires c != DOT && c != DASH && c != PLUS
    ensures Parse([c]) == Parsed([NumberOf([c])], [])
  {
    SplitFree([c], DOT);
  }

  lemma DigitValue(c: Unit)
    requires 48 <= c <= 57
    ensures NumberOf([c]) == Num(c - 48)
  {
    assert FromDigits([c]) == 10 * FromDigits([c][..0]) + (c - 48);
  }

  /** With unparseable cores there is no such order: "2" ties with "x", "x" with "1", yet "2" is above "1". */
  lemma TiesAreNotTransitive()
    ensures Compare([50], [120]) == 0 && Compare([120], [49]) == 0 && Compare([50], [49]) == 1
  {
    OnePart(50);
    OnePart(49);
    OnePart(120);
    DigitValue(50);
    DigitValue(49);
    assert !IsNumeric([120]);
  }

  /** Nor is an unparseable core always a tie: "2.x" is above "1". */
  lemma UnparseableCanBeOrdered()
    ensures Unorderable([50, 46, 120]) && Compare([50, 46, 120], [49]) == 1
  {
    OnePart(49);
    DigitValue(50);
    DigitValue(49);
    SplitFree([120], DOT);
    SplitHead([50], DOT, [120]);
    assert [50] + [DOT] + [120] == [50, 46, 120];
    assert !IsNumeric([120]);
    var v := [50, 46, 120];
    assert Before(v, PLUS) == v && Before(v, DASH) == v;
    assert Component(Parse(v).core, 1).NaN?;
  }
}
