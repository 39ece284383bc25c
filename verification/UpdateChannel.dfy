/** src/shared/app-update-channel.ts: the strict grammar, and what it adds to the comparison. */
module UpdateChannel {
  import opened Options
  import opened Decimals
  import opened Texts
  import opened Semver
  import opened SemverProofs
  import opened Precedence

  datatype Channel = Stable | Beta

  /** "beta" */
  const BETA: Text := [98, 101, 116, 97]

  predicate IsWordUnit(c: Unit) {
    IsDigit(c) || 65 <= c <= 90 || 97 <= c <= 122 || c == DASH
  }

  predicate IsWord(s: Text) {
    s != [] && forall i :: 0 <= i < |s| ==> IsWordUnit(s[i])
  }

  /** A numeral without leading zeros, or a word that is not all digits. */
  predicate IsPreIdentifier(s: Text) {
    IsNumeral(s) || (IsWord(s) && !AllDigits(s))
  }

  /** The pieces the pattern captures: `1.2.3`, `-beta.4` and `+build.5`. */
  datatype Pieces = Pieces(core: seq<Text>, pre: Option<seq<Text>>, build: Option<seq<Text>>)

  predicate WellFormed(d: Pieces) {
    && |d.core| == 3 && (forall i :: 0 <= i < 3 ==> IsNumeral(d.core[i]))
    && (d.pre.Some? ==> d.pre.value != [] && forall i :: 0 <= i < |d.pre.value| ==> IsPreIdentifier(d.pre.value[i]))
    && (d.build.Some? ==> d.build.value != [] && forall i :: 0 <= i < |d.build.value| ==> IsWord(d.build.value[i]))
  }

  function Tail(mark: Unit, parts: Option<seq<Text>>): Text
    requires parts.Some? ==> parts.value != []
  {
    match parts case None => [] case Some(ps) => [mark] + Join(ps, DOT)
  }

  predicate Joinable(d: Pieces) {
    d.core != [] && (d.pre.Some? ==> d.pre.value != []) && (d.build.Some? ==> d.build.value != [])
  }

  /** The string with these pieces. */
  function Write(d: Pieces): Text
    requires Joinable(d)
  {
    Join(d.core, DOT) + Tail(DASH, d.pre) + Tail(PLUS, d.build)
  }

  /** The strings the pattern matches. */
  ghost predicate Strict(v: Text) {
    exists d :: WellFormed(d) && Write(d) == v
  }

  function TailParts(s: Text, mark: Unit): Option<seq<Text>> {
    if IndexOf(s, mark) == -1 then None else Some(Split(After(s, mark), DOT))
  }

  function Cut(v: Text): (d: Pieces)
    ensures Joinable(d)
  {
    var noBuild := Before(v, PLUS);
    Pieces(CoreParts(v), TailParts(noBuild, DASH), TailParts(v, PLUS))
  }

  function IsVersionAllowedForChannel(version: Text, channel: Channel): bool {
    var d := Cut(version);
    WellFormed(d) && (d.pre.None? || (channel.Beta? && d.pre.value[0] == BETA))
  }

  // ---------------------------------------------------------------- the pattern has one way to match

  lemma FoundAt(s: Text, c: Unit, t: Text)
    requires Free(s, c)
    ensures IndexOf(s + [c] + t, c) == |s| && Before(s + [c] + t, c) == s && After(s + [c] + t, c) == t
    ensures IndexOf(s, c) == -1 && Before(s, c) == s
  {
    var whole := s + [c] + t;
    assert whole[|s|] == c && forall j :: 0 <= j < |s| ==> whole[j] == s[j];
  }

  lemma CutTail(s: Text, mark: Unit, parts: Option<seq<Text>>)
    requires Free(s, mark)
    requires (parts.Some? ==> parts.value != [] && forall i :: 0 <= i < |parts.value| ==> Free(parts.value[i], DOT))
    ensures Before(s + Tail(mark, parts), mark) == s && TailParts(s + Tail(mark, parts), mark) == parts
  {
    match parts
    case None =>
      assert s + [] == s;
      FoundAt(s, mark, []);
    case Some(ps) =>
      FoundAt(s, mark, Join(ps, DOT));
      assert s + ([mark] + Join(ps, DOT)) == s + [mark] + Join(ps, DOT);
      SplitJoin(ps, DOT);
  }

  lemma NumeralsFree(d: Pieces, c: Unit)
    requires WellFormed(d) && !IsDigit(c)
    ensures forall i :: 0 <= i < 3 ==> Free(d.core[i], c)
  {
  }

  lemma PreIdentifiersFree(d: Pieces, c: Unit)
    requires WellFormed(d) && d.pre.Some? && !IsWordUnit(c)
    ensures forall i :: 0 <= i < |d.pre.value| ==> Free(d.pre.value[i], c)
  {
  }

  lemma WordsFree(d: Pieces, c: Unit)
    requires WellFormed(d) && d.build.Some? && !IsWordUnit(c)
    ensures forall i :: 0 <= i < |d.build.value| ==> Free(d.build.value[i], c)
  {
  }

  lemma FrontFree(d: Pieces)
    requires WellFormed(d)
    ensures Free(Join(d.core, DOT), DASH) && Free(Join(d.core, DOT) + Tail(DASH, d.pre), PLUS)
  {
    NumeralsFree(d, DASH);
    NumeralsFree(d, PLUS);
    JoinFree(d.core, DOT, DASH);
    JoinFree(d.core, DOT, PLUS);
    if d.pre.Some? {
      PreIdentifiersFree(d, PLUS);
      JoinFree(d.pre.value, DOT, PLUS);
    }
  }

  /** Cutting recovers the pieces a string was written from. */
  lemma CutWrite(d: Pieces)
    requires WellFormed(d)
    ensures Cut(Write(d)) == d
  {
    var core, front := Join(d.core, DOT), Join(d.core, DOT) + Tail(DASH, d.pre);
    FrontFree(d);
    if d.build.Some? { WordsFree(d, DOT); }
    CutTail(front, PLUS, d.build);
    if d.pre.Some? { PreIdentifiersFree(d, DOT); }
    CutTail(core, DASH, d.pre);
    NumeralsFree(d, DOT);
    SplitJoin(d.core, DOT);
  }

  lemma TailOf(s: Text, mark: Unit)
    ensures s == Before(s, mark) + Tail(mark, TailParts(s, mark))
  {
    var i := IndexOf(s, mark);
    if i == -1 {
      assert s + [] == s;
    } else {
      JoinSplit(s[i + 1..], DOT);
      assert s == s[..i] + ([s[i]] + s[i + 1..]);
    }
  }

  /** Every string is written from its cut. */
  lemma WriteCut(v: Text)
    ensures Write(Cut(v)) == v
    ensures Before(v, PLUS) == Join(Cut(v).core, DOT) + Tail(DASH, Cut(v).pre)
  {
    TailOf(v, PLUS);
    TailOf(Before(v, PLUS), DASH);
    JoinSplit(Before(Before(v, PLUS), DASH), DOT);
  }

  /** The pattern matches exactly the strings whose cut is well formed, and in one way only. */
  lemma StrictIffCut(v: Text)
    ensures Strict(v) <==> WellFormed(Cut(v))
    ensures forall d :: WellFormed(d) && Write(d) == v ==> d == Cut(v)
  {
    WriteCut(v);
    forall d | WellFormed(d) && Write(d) == v ensures d == Cut(v) {
      CutWrite(d);
    }
  }

  /** Who may be offered what: releases on both channels, `beta` pre-releases on the beta channel only. */
  lemma AllowedIff(v: Text, channel: Channel)
    ensures IsVersionAllowedForChannel(v, channel)
       <==> exists d :: WellFormed(d) && Write(d) == v && (d.pre.None? || (channel.Beta? && d.pre.value[0] == BETA))
  {
    StrictIffCut(v);
    WriteCut(v);
  }

  // ---------------------------------------------------------------- the pieces of the pattern

  /** A class of the pattern: digits, ASCII letters and the hyphen. */
  predicate IsDigitLetterHyphen(c: Unit) {
    || '0' as int <= c <= '9' as int || 'A' as int <= c <= 'Z' as int || 'a' as int <= c <= 'z' as int
    || c == '-' as int
  }

  /** A core part is `0`, or digits of which the first is not zero. */
  lemma NumeralIff(s: Text)
    ensures IsNumeral(s)
       <==> s == [48] || (s != [] && 49 <= s[0] <= 57 && forall i :: 1 <= i < |s| ==> 48 <= s[i] <= 57)
  {
  }

  /** A build part is one or more of these. */
  lemma WordIff(s: Text)
    ensures IsWord(s) <==> |s| >= 1 && forall i :: 0 <= i < |s| ==> IsDigitLetterHyphen(s[i])
  {
  }

  /** A pre-release part is too, but not a numeral with leading zeros. */
  lemma PreIdentifierIff(s: Text)
    ensures IsPreIdentifier(s)
       <==> |s| >= 1 && (forall i :: 0 <= i < |s| ==> IsDigitLetterHyphen(s[i]))
            && !(|s| >= 2 && s[0] == '0' as int && forall i :: 0 <= i < |s| ==> '0' as int <= s[i] <= '9' as int)
  {
    assert AllDigits(s) ==> forall i :: 0 <= i < |s| ==> IsDigit(s[i]);
  }

  // ---------------------------------------------------------------- ties of strict versions

  lemma PreOf(v: Text)
    requires WellFormed(Cut(v))
    ensures Parse(v).pre == match Cut(v).pre case None => [] case Some(ids) => ids
  {
    SplitFree([], DOT);
    assert Cut(v).pre.Some? ==> IsPreIdentifier(Cut(v).pre.value[0]);
  }

  lemma StrictIsOrderable(v: Text)
    requires WellFormed(Cut(v))
    ensures !Unorderable(v)
    ensures CoreOf(v) == [FromDigits(Cut(v).core[0]), FromDigits(Cut(v).core[1]), FromDigits(Cut(v).core[2])]
  {
    var p, parts := Parse(v).core, CoreParts(v);
    assert parts == Cut(v).core;
    forall i | 0 <= i < 3 ensures FromDigits(parts[i]) >= 0 && p[i] == Num(FromDigits(parts[i])) {
      assert IsNumeral(parts[i]);
      NumeralDigits(parts[i]);
    }
    assert Component(p, 0) == p[0] && Component(p, 1) == p[1] && Component(p, 2) == p[2];
  }

  lemma NumeralsInjective(x: Text, y: Text)
    requires IsNumeral(x) && IsNumeral(y) && FromDigits(x) == FromDigits(y)
    ensures x == y
  {
    NumeralDigits(x);
    NumeralDigits(y);
  }

  lemma IdentifiersInjective(x: Text, y: Text)
    requires IsPreIdentifier(x) && IsPreIdentifier(y) && IdentifierOf(x) == IdentifierOf(y)
    ensures x == y
  {
    if IsNumeral(x) && IsNumeral(y) {
      NumeralsInjective(x, y);
    }
  }

  lemma SamePieces(a: Text, b: Text)
    requires WellFormed(Cut(a)) && WellFormed(Cut(b)) && !Unorderable(a) && !Unorderable(b) && Read(a) == Read(b)
    ensures Cut(a).core == Cut(b).core && Cut(a).pre == Cut(b).pre
  {
    StrictIsOrderable(a);
    StrictIsOrderable(b);
    var x, y := Cut(a).core, Cut(b).core;
    assert CoreOf(a) == CoreOf(b);
    assert FromDigits(x[0]) == CoreOf(a)[0] && FromDigits(y[0]) == CoreOf(b)[0];
    assert FromDigits(x[1]) == CoreOf(a)[1] && FromDigits(y[1]) == CoreOf(b)[1];
    assert FromDigits(x[2]) == CoreOf(a)[2] && FromDigits(y[2]) == CoreOf(b)[2];
    forall i | 0 <= i < 3 ensures x[i] == y[i] {
      NumeralsInjective(x[i], y[i]);
    }
    SamePre(a, b);
  }

  lemma SamePre(a: Text, b: Text)
    requires WellFormed(Cut(a)) && WellFormed(Cut(b)) && Identifiers(Parse(a).pre) == Identifiers(Parse(b).pre)
    ensures Cut(a).pre == Cut(b).pre
  {
    PreOf(a);
    PreOf(b);
    var p, q := Parse(a).pre, Parse(b).pre;
    assert |Identifiers(p)| == |Identifiers(q)|;
    forall i | 0 <= i < |p| ensures p[i] == q[i] {
      assert Identifiers(p)[i] == Identifiers(q)[i];
      IdentifiersInjective(p[i], q[i]);
    }
    assert p == q;
  }

  /** Strict versions tie exactly when they are the same string up to build metadata. */
  lemma StrictTie(a: Text, b: Text)
    requires Strict(a) && Strict(b)
    ensures Compare(a, b) == 0 <==> Before(a, PLUS) == Before(b, PLUS)
  {
    StrictIffCut(a);
    StrictIffCut(b);
    StrictIsOrderable(a);
    StrictIsOrderable(b);
    RefinesPrecedence(a, b);
    if Compare(a, b) == 0 {
      SamePieces(a, b);
      WriteCut(a);
      WriteCut(b);
    }
  }
}
