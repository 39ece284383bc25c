/** src/shared/semver.ts */
module Semver {
  import opened Options
  import opened Decimals
  import opened Texts
  import L = Lexicographic

  const PLUS: Unit := 43
  const DASH: Unit := 45
  const DOT: Unit := 46

  datatype Number = NaN | Num(n: nat)
  datatype Parsed = Parsed(core: seq<Number>, pre: seq<Text>)

  predicate IsNumeric(s: Text) {
    s != [] && AllDigits(s)
  }

  /** `Number.parseInt`, exact: no rounding of numerals beyond 2^53. */
  function ParseInt(s: Text): nat
    requires IsNumeric(s)
  {
    FromDigitsNatural(s);
    FromDigits(s)
  }

  function NumberOf(part: Text): Number {
    if IsNumeric(part) then Num(ParseInt(part)) else NaN
  }

  function Before(s: Text, c: Unit): Text {
    var i := IndexOf(s, c);
    if i == -1 then s else s[..i]
  }

  function After(s: Text, c: Unit): Text {
    var i := IndexOf(s, c);
    if i == -1 then [] else s[i + 1..]
  }

  function CoreParts(v: Text): seq<Text> {
    Split(Before(Before(v, PLUS), DASH), DOT)
  }

  function Parse(v: Text): Parsed {
    var parts, pre := CoreParts(v), After(Before(v, PLUS), DASH);
    Parsed(seq(|parts|, i requires 0 <= i < |parts| => NumberOf(parts[i])), if pre == [] then [] else Split(pre, DOT))
  }

  // ---------------------------------------------------------------- the comparison

  /** A missing component counts as zero. */
  function Component(core: seq<Number>, i: nat): Number {
    if i < |core| then core[i] else Num(0)
  }

  /** The comparison of the components from `i` on, if it is decided there. */
  function CoreOrder(p: seq<Number>, q: seq<Number>, i: nat): Option<int>
    decreases 3 - i
  {
    if i >= 3 then None
    else
      var x, y := Component(p, i), Component(q, i);
      if x.NaN? || y.NaN? then Some(0)
      else if x != y then Some(if x.n > y.n then 1 else -1)
      else CoreOrder(p, q, i + 1)
  }

  function IdentifierOrder(x: Text, y: Text): int {
    if IsNumeric(x) && IsNumeric(y) then
      (if ParseInt(x) == ParseInt(y) then 0 else if ParseInt(x) > ParseInt(y) then 1 else -1)
    else if IsNumeric(x) then -1
    else if IsNumeric(y) then 1
    else if x == y then 0
    else if Greater(x, y) then 1 else -1
  }

  function PreOrder(p: seq<Text>, q: seq<Text>): int {
    if p == [] then (if q == [] then 0 else -1)
    else if q == [] then 1
    else if IdentifierOrder(p[0], q[0]) != 0 then IdentifierOrder(p[0], q[0])
    else PreOrder(p[1..], q[1..])
  }

  function CompareParsed(a: Parsed, b: Parsed): int {
    match CoreOrder(a.core, b.core, 0)
    case Some(r) => r
    case None =>
      if a.pre == [] && b.pre == [] then 0
      else if a.pre == [] then 1
      else if b.pre == [] then -1
      else PreOrder(a.pre, b.pre)
  }

  function Compare(a: Text, b: Text): int {
    CompareParsed(Parse(a), Parse(b))
  }

  method CompareSemver(a: Text, b: Text) returns (r: int)
    ensures r == Compare(a, b)
  {
    var pa, pb := Parse(a), Parse(b);
    for i := 0 to 3
      invariant CoreOrder(pa.core, pb.core, i) == CoreOrder(pa.core, pb.core, 0)
    {
      var ai, bi := Component(pa.core, i), Component(pb.core, i);
      if ai.NaN? || bi.NaN? { return 0; }
      if ai.n != bi.n { return if ai.n > bi.n then 1 else -1; }
    }
    if pa.pre == [] && pb.pre == [] { return 0; }
    if pa.pre == [] { return 1; }
    if pb.pre == [] { return -1; }
    var len := if |pa.pre| > |pb.pre| then |pa.pre| else |pb.pre|;
    for i := 0 to len
      invariant i <= |pa.pre| && i <= |pb.pre|
      invariant PreOrder(pa.pre[i..], pb.pre[i..]) == PreOrder(pa.pre, pb.pre)
    {
      if i >= |pa.pre| { return -1; }
      if i >= |pb.pre| { return 1; }
      var x, y := pa.pre[i], pb.pre[i];
      if IsNumeric(x) && IsNumeric(y) {
        if ParseInt(x) != ParseInt(y) { return if ParseInt(x) > ParseInt(y) then 1 else -1; }
      } else if IsNumeric(x) {
        return -1;
      } else if IsNumeric(y) {
        return 1;
      } else if x != y {
        return if Greater(x, y) then 1 else -1;
      }
    }
    r := 0;
  }

  predicate SemverGt(a: Text, b: Text) {
    Compare(a, b) > 0
  }
}
