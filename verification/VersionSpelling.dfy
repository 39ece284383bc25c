/** Which spellings `compareSemver` of src/shared/semver.ts does not tell apart. */
module VersionSpelling {
  import opened Decimals
  import opened Texts
  import opened Semver
  import opened SemverProofs

  const ZERO: Unit := 48

  /** No separator inside. */
  predicate Plain(part: Text) {
    Free(part, DOT) && Free(part, DASH) && Free(part, PLUS)
  }

  predicate AllPlain(parts: seq<Text>) {
    parts != [] && forall i :: 0 <= i < |parts| ==> Plain(parts[i])
  }

  /** A pre-release, build metadata, both or nothing. */
  predicate IsTail(tail: Text) {
    tail == [] || tail[0] == DASH || tail[0] == PLUS
  }

  function Spelled(parts: seq<Text>, tail: Text): Text
    requires parts != []
  {
    Join(parts, DOT) + tail
  }

  /** `v` and `w` compare alike with every string, on either side, and tie. */
  ghost predicate Alike(v: Text, w: Text) {
    && Compare(v, w) == 0
    && forall x :: Compare(v, x) == Compare(w, x) && Compare(x, v) == Compare(x, w)
  }

  lemma {:induction false} IndexSkips(s: Text, c: Unit, t: Text)
    requires Free(s, c)
    ensures IndexOf(s + t, c) == if IndexOf(t, c) == -1 then -1 else |s| + IndexOf(t, c)
  {
    if s == [] {
      assert s + t == t;
    } else {
      assert (s + t)[1..] == s[1..] + t;
      IndexSkips(s[1..], c, t);
    }
  }

  lemma BeforeSkips(s: Text, c: Unit, t: Text)
    requires Free(s, c)
    ensures Before(s + t, c) == s + Before(t, c) && After(s + t, c) == After(t, c)
  {
    IndexSkips(s, c, t);
  }

  /** The components of a string spelled from parts are the numbers of these parts, and its pre-release the tail's. */
  lemma ParseSpelled(parts: seq<Text>, tail: Text)
    requires AllPlain(parts) && IsTail(tail)
    ensures CoreParts(Spelled(parts, tail)) == parts
    ensures Parse(Spelled(parts, tail)).pre == Parse(tail).pre
  {
    var core, front := Join(parts, DOT), Before(tail, PLUS);
    JoinFree(parts, DOT, PLUS);
    JoinFree(parts, DOT, DASH);
    BeforeSkips(core, PLUS, tail);
    BeforeSkips(core, DASH, front);
    assert Before(front, DASH) == [];
    assert core + [] == core;
    SplitJoin(parts, DOT);
  }

  lemma {:induction false} SameComponents(p: seq<Number>, q: seq<Number>, x: seq<Number>, i: nat)
    requires forall j :: 0 <= j < 3 ==> Component(p, j) == Component(q, j)
    ensures CoreOrder(p, x, i) == CoreOrder(q, x, i)
    decreases 3 - i
  {
    if i < 3 {
      SameComponents(p, q, x, i + 1);
    }
  }

  lemma SameParse(v: Text, w: Text)
    requires forall j :: 0 <= j < 3 ==> Component(Parse(v).core, j) == Component(Parse(w).core, j)
    requires Parse(v).pre == Parse(w).pre
    ensures Alike(v, w)
  {
    forall x ensures Compare(v, x) == Compare(w, x) && Compare(x, v) == Compare(x, w) {
      SameComponents(Parse(v).core, Parse(w).core, Parse(x).core, 0);
      Antisymmetric(v, x);
      Antisymmetric(w, x);
    }
    Antisymmetric(w, w);
  }

  /** The components by position: those that are spelled out, and zero for those that are not. */
  lemma ComponentSpelled(parts: seq<Text>, tail: Text, j: nat)
    requires AllPlain(parts) && IsTail(tail)
    ensures Component(Parse(Spelled(parts, tail)).core, j) == if j < |parts| then NumberOf(parts[j]) else Num(0)
  {
    ParseSpelled(parts, tail);
  }

  lemma ZeroIsPlain()
    ensures Plain([ZERO]) && NumberOf([ZERO]) == Num(0)
  {
    assert FromDigits([ZERO]) == 10 * FromDigits([ZERO][..0]);
  }

  /** "1.2" and "1" are "1.2.0" and "1.0": a component that is left out is zero, whatever stands after the core. */
  lemma MissingIsZero(parts: seq<Text>, tail: Text)
    requires AllPlain(parts) && IsTail(tail)
    ensures Alike(Spelled(parts, tail), Spelled(parts + [[48]], tail))
  {
    ZeroIsPlain();
    ParseSpelled(parts, tail);
    ParseSpelled(parts + [[ZERO]], tail);
    forall j | 0 <= j < 3
      ensures Component(Parse(Spelled(parts, tail)).core, j)
           == Component(Parse(Spelled(parts + [[ZERO]], tail)).core, j) {
      ComponentSpelled(parts, tail, j);
      ComponentSpelled(parts + [[ZERO]], tail, j);
    }
    SameParse(Spelled(parts, tail), Spelled(parts + [[ZERO]], tail));
  }

  /** A fourth component and any after it say nothing. */
  lemma FourthIsIgnored(parts: seq<Text>, more: seq<Text>, tail: Text)
    requires |parts| == 3 && AllPlain(parts + more) && IsTail(tail)
    ensures Alike(Spelled(parts, tail), Spelled(parts + more, tail))
  {
    assert forall i :: 0 <= i < |parts| ==> parts[i] == (parts + more)[i];
    ParseSpelled(parts, tail);
    ParseSpelled(parts + more, tail);
    forall j | 0 <= j < 3
      ensures Component(Parse(Spelled(parts, tail)).core, j) == Component(Parse(Spelled(parts + more, tail)).core, j) {
      ComponentSpelled(parts, tail, j);
      ComponentSpelled(parts + more, tail, j);
    }
    SameParse(Spelled(parts, tail), Spelled(parts + more, tail));
  }

  lemma {:induction false} LeadingZeroValue(digits: Text)
    ensures FromDigits([ZERO] + digits) == FromDigits(digits)
    decreases |digits|
  {
    var whole := [ZERO] + digits;
    if digits == [] {
      assert whole[..0] == [];
    } else {
      assert whole[..|whole| - 1] == [ZERO] + digits[..|digits| - 1];
      LeadingZeroValue(digits[..|digits| - 1]);
    }
  }

  lemma LeadingZeroNumber(digits: Text)
    requires IsNumeric(digits)
    ensures Plain([ZERO] + digits) && NumberOf([ZERO] + digits) == NumberOf(digits) && NumberOf(digits).Num?
    ensures forall x :: IdentifierOrder([ZERO] + digits, x) == IdentifierOrder(digits, x)
  {
    LeadingZeroValue(digits);
    assert IsNumeric([ZERO] + digits);
  }

  /** "1.02" is "1.2": a zero in front of a numeral of the core changes nothing. */
  lemma LeadingZerosAreIgnored(parts: seq<Text>, i: nat, tail: Text)
    requires AllPlain(parts) && IsTail(tail) && i < |parts| && IsNumeric(parts[i])
    ensures Alike(Spelled(parts, tail), Spelled(parts[i := [48] + parts[i]], tail))
  {
    var padded := parts[i := [ZERO] + parts[i]];
    LeadingZeroNumber(parts[i]);
    ParseSpelled(parts, tail);
    ParseSpelled(padded, tail);
    forall j | 0 <= j < 3
      ensures Component(Parse(Spelled(parts, tail)).core, j) == Component(Parse(Spelled(padded, tail)).core, j) {
      ComponentSpelled(parts, tail, j);
      ComponentSpelled(padded, tail, j);
    }
    SameParse(Spelled(parts, tail), Spelled(padded, tail));
  }

  /** The numerals themselves are read as written: a core of printed numbers compares as these numbers. */
  lemma NumbersAreRead(n: nat)
    ensures Plain(Digits(n)) && NumberOf(Digits(n)) == Num(n)
  {
    DigitsAreNumeral(n);
  }
}
