/** What the sanitizer guarantees, and exactly when a second pass changes the name again. */
module SanitizerProofs {
  import opened Utf8
  import opened Sanitizer

  ghost predicate NoForbidden(s: string) {
    forall i :: 0 <= i < |s| ==> !IsForbidden(s[i])
  }

  ghost predicate EndsClean(s: string) {
    s != "" ==> !IsBlank(s[|s| - 1])
  }

  /** Valid as a component everywhere, device names aside. */
  ghost predicate WellFormed(s: string) {
    s != "" && ByteLen(s) <= MAX_COMPONENT_BYTES && NoForbidden(s) && EndsClean(s)
  }

  /** Valid as a component on every supported platform. */
  ghost predicate Portable(s: string) {
    WellFormed(s) && !IsReservedStem(Stem(s))
  }

  /** The clamped part of an over-long name shrinks to a bare device name. */
  predicate CollapsesToDevice(name: string) {
    ByteLen(name) > MAX_COMPONENT_BYTES && IsReservedStem(TrimEnd(ClampedPart(name)))
  }

  // ---------------------------------------------------------------- stages

  /** Device names are short and hold no dot, space or underscore. */
  predicate DeviceShaped(name: string) {
    3 <= |name| <= 7 && forall i :: 0 <= i < |name| ==> name[i] != '_' && !IsBlank(name[i])
  }

  lemma {:induction false} ListedIsMember(name: string, names: seq<string>)
    requires Listed(name, names)
    ensures exists i :: 0 <= i < |names| && names[i] == name
    decreases |names|
  {
    if name != names[0] {
      ListedIsMember(name, names[1..]);
      var i :| 0 <= i < |names[1..]| && names[1..][i] == name;
      assert names[i + 1] == name;
    }
  }

  lemma PortNameShaped(upper: string)
    requires |upper| == 4 && Listed(upper[..3], PORT_PREFIXES) && upper[3] in PORT_NUMBERS
    ensures DeviceShaped(upper)
  {
    ListedIsMember(upper[..3], PORT_PREFIXES);
    assert upper == upper[..3] + [upper[3]];
    assert upper[3] != '_' && !IsBlank(upper[3]);
  }

  lemma ReservedUpper(stem: string)
    requires IsReservedStem(stem)
    ensures DeviceShaped(ToUpper(stem))
  {
    var upper := ToUpper(stem);
    if Listed(upper, DEVICE_NAMES) {
      ListedIsMember(upper, DEVICE_NAMES);
    } else {
      PortNameShaped(upper);
    }
  }

  lemma ReservedNames(stem: string)
    requires IsReservedStem(stem)
    ensures DeviceShaped(stem) && ByteLen(stem) <= 28
  {
    ReservedUpper(stem);
    ByteLenBounds(stem);
    forall i | 0 <= i < |stem| ensures stem[i] != '_' && !IsBlank(stem[i]) {
      assert ToUpper(stem)[i] == Upper(stem[i]);
    }
  }

  lemma StemOfPrefix(s: string, p: string)
    requires p <= s
    ensures StemEnd(p) < |p| ==> StemEnd(s) == StemEnd(p) && Stem(s) == Stem(p)
    ensures StemEnd(p) == |p| ==> StemEnd(s) >= |p|
  {
    if StemEnd(s) < |p| { assert p[StemEnd(s)] == '.'; }
  }

  /** A stem that shows a mark is no device name. */
  lemma MarkedStem(s: string, at: nat)
    requires at < |s| && s[at] == '_'
    requires forall i :: 0 <= i < at ==> s[i] != '.'
    ensures !IsReservedStem(Stem(s))
  {
    StemOfPrefix(s, s[..at + 1]);
    assert Stem(s)[at] == '_';
    if IsReservedStem(Stem(s)) {
      ReservedNames(Stem(s));
    }
  }

  lemma Inserted(name: string, k: nat, r: string)
    requires k <= |name| && r == name[..k] + [REPLACEMENT] + name[k..]
    ensures |r| == |name| + 1 && r[k] == '_' && forall i :: 0 <= i < k ==> r[i] == name[i]
    ensures forall i :: k < i < |r| ==> r[i] == name[i - 1]
  {
  }

  lemma DereservedStem(name: string)
    ensures !IsReservedStem(Stem(Dereserve(name)))
  {
    if IsReservedStem(Stem(name)) {
      Inserted(name, StemEnd(name), Dereserve(name));
      MarkedStem(Dereserve(name), StemEnd(name));
    }
  }

  lemma DereserveKeeps(name: string)
    requires NoForbidden(name) && EndsClean(name)
    ensures NoForbidden(Dereserve(name)) && EndsClean(Dereserve(name))
  {
    var r, k := Dereserve(name), StemEnd(name);
    if r != name {
      Inserted(name, k, r);
      forall i | 0 <= i < |r| ensures !IsForbidden(r[i]) {
        assert i < k ==> r[i] == name[i];
        assert i > k ==> r[i] == name[i - 1];
      }
    }
  }

  lemma PreparedShape(x: string)
    ensures NoForbidden(Prepared(x)) && EndsClean(Prepared(x))
    ensures !IsReservedStem(Stem(Prepared(x)))
  {
    DereserveKeeps(TrimEnd(Replace(x)));
    DereservedStem(TrimEnd(Replace(x)));
  }

  lemma ClampedPartFits(name: string)
    ensures ClampedPart(name) <= name
    ensures ByteLen(ClampedPart(name)) + (if KeepsExtension(name) then 1 + ByteLen(Extension(name)) else 0)
         <= MAX_COMPONENT_BYTES
  {
    TruncateIsLongest(name, MAX_COMPONENT_BYTES, "");
    if KeepsExtension(name) {
      TruncateIsLongest(name[..AfterLastDot(name) - 1], MAX_COMPONENT_BYTES - ByteLen(Extension(name)) - 1, "");
    }
  }

  lemma WithExtension(kept: string, tail: string)
    ensures ByteLen(kept + ("." + tail)) == ByteLen(kept) + 1 + ByteLen(tail)
  {
    ByteLenConcat(kept, "." + tail);
    ByteLenConcat(".", tail);
    AsciiByteLen(".");
  }

  lemma ClampFits(name: string)
    ensures ByteLen(Clamp(name)) <= MAX_COMPONENT_BYTES
  {
    ClampedPartFits(name);
    var kept := TrimEnd(ClampedPart(name));
    PrefixByteLen(kept, ClampedPart(name));
    WithExtension(kept, Extension(name));
    assert kept + "" == kept;
  }

  lemma CleanConcat(kept: string, tail: string)
    requires NoForbidden(kept) && NoForbidden(tail) && EndsClean(kept) && EndsClean(tail)
    ensures NoForbidden(kept + tail) && EndsClean(kept + tail)
  {
    if tail == "" {
      assert kept + tail == kept;
    }
  }

  lemma CleanExtension(name: string)
    requires NoForbidden(name) && EndsClean(name) && KeepsExtension(name)
    ensures NoForbidden("." + Extension(name)) && EndsClean("." + Extension(name))
  {
    var tail := Extension(name);
    assert tail != "" && tail[|tail| - 1] == name[|name| - 1];
    assert NoForbidden(tail);
  }

  lemma ClampCharacters(name: string)
    requires NoForbidden(name) && EndsClean(name)
    ensures NoForbidden(Clamp(name)) && EndsClean(Clamp(name))
  {
    ClampedPartFits(name);
    var kept := TrimEnd(ClampedPart(name));
    assert NoForbidden(kept);
    if KeepsExtension(name) {
      CleanExtension(name);
      CleanConcat(kept, "." + Extension(name));
    } else {
      CleanConcat(kept, "");
    }
  }

  lemma FallbackIsWellFormed()
    ensures WellFormed(FALLBACK_NAME)
  {
    ByteLenBounds(FALLBACK_NAME);
  }

  /** The output contract, for every input. */
  lemma SanitizedIsWellFormed(x: string)
    ensures WellFormed(Sanitize(x))
  {
    var d := Prepared(x);
    assert NoForbidden(d) && EndsClean(d) by { PreparedShape(x); }
    ClampFits(d);
    ClampCharacters(d);
    FallbackIsWellFormed();
  }

  // ---------------------------------------------------------------- fixpoints

  lemma {:induction false} TrimEndOfClean(s: string)
    requires EndsClean(s)
    ensures TrimEnd(s) == s
  {
  }

  lemma PortableIsFixed(y: string)
    requires Portable(y)
    ensures Sanitize(y) == y
  {
    assert Replace(y) == y;
    TrimEndOfClean(y);
  }

  lemma TrimKeeps(s: string, mark: string)
    requires mark <= s && mark != "" && EndsClean(mark)
    ensures mark <= TrimEnd(s)
  {
    assert s[|mark| - 1] == mark[|mark| - 1];
    if |TrimEnd(s)| < |mark| {
      assert false;
    }
  }

  lemma CutKeeps(s: string, budget: nat, mark: string)
    requires mark <= s && mark != "" && EndsClean(mark) && ByteLen(mark) <= budget
    ensures mark <= TrimEnd(Truncate(s, budget))
  {
    TruncateIsLongest(s, budget, mark);
    TrimKeeps(Truncate(s, budget), mark);
  }

  lemma MarkBeforeDot(d: string, mark: string)
    requires mark <= d && KeepsExtension(d)
    requires forall i :: 0 <= i < |mark| ==> mark[i] != '.'
    ensures mark <= d[..AfterLastDot(d) - 1]
  {
    assert d[..|mark|] == mark;
    assert d[AfterLastDot(d) - 1] == '.';
  }

  lemma KeptPartKeepsMark(d: string, mark: string, budget: nat)
    requires mark <= d && mark != "" && EndsClean(mark) && ByteLen(mark) <= budget
    requires forall i :: 0 <= i < |mark| ==> mark[i] != '.'
    requires KeepsExtension(d) && budget == MAX_COMPONENT_BYTES - ByteLen(Extension(d)) - 1
    ensures mark <= TrimEnd(ClampedPart(d))
  {
    MarkBeforeDot(d, mark);
    CutKeeps(d[..AfterLastDot(d) - 1], budget, mark);
  }

  lemma WholePartKeepsMark(d: string, mark: string, budget: nat)
    requires mark <= d && mark != "" && EndsClean(mark) && ByteLen(mark) <= budget
    requires !KeepsExtension(d) && budget == MAX_COMPONENT_BYTES
    ensures mark <= TrimEnd(ClampedPart(d))
  {
    CutKeeps(d, budget, mark);
  }

  lemma ClampedPartKeepsMark(d: string, mark: string, budget: nat)
    requires mark <= d && mark != "" && EndsClean(mark)
    requires ByteLen(mark) <= MAX_COMPONENT_BYTES - MAX_EXTENSION_BYTES - 1
    requires forall i :: 0 <= i < |mark| ==> mark[i] != '.'
    requires budget == MAX_COMPONENT_BYTES - (if KeepsExtension(d) then ByteLen(Extension(d)) + 1 else 0)
    ensures mark <= TrimEnd(ClampedPart(d))
  {
    if KeepsExtension(d) {
      KeptPartKeepsMark(d, mark, budget);
    } else {
      WholePartKeepsMark(d, mark, budget);
    }
  }

  /** Clamping never touches a short dotless beginning. */
  lemma ClampKeepsMark(d: string, mark: string)
    requires mark <= d && mark != "" && EndsClean(mark)
    requires ByteLen(mark) <= MAX_COMPONENT_BYTES - MAX_EXTENSION_BYTES - 1
    requires forall i :: 0 <= i < |mark| ==> mark[i] != '.'
    ensures mark <= Clamp(d)
  {
    if ByteLen(d) > MAX_COMPONENT_BYTES {
      ClampedPartKeepsMark(d, mark, MAX_COMPONENT_BYTES - if KeepsExtension(d) then ByteLen(Extension(d)) + 1 else 0);
      StartsWithConcat(mark, TrimEnd(ClampedPart(d)), if KeepsExtension(d) then "." + Extension(d) else "");
    }
  }

  lemma StartsWithConcat(mark: string, kept: string, tail: string)
    requires mark <= kept
    ensures mark <= kept + tail
  {
    assert (kept + tail)[..|mark|] == kept[..|mark|];
  }

  /** A second pass over a reserved name keeps the stem and marks it. */
  lemma SecondPassMarksStem(y: string)
    requires WellFormed(y) && IsReservedStem(Stem(y))
    ensures Stem(y) + "_" <= Sanitize(y)
  {
    assert Replace(y) == y;
    TrimEndOfClean(y);
    ReservedNames(Stem(y));
    ByteLenConcat(Stem(y), "_");
    AsciiByteLen("_");
    ClampKeepsMark(Dereserve(y), Stem(y) + "_");
  }

  /** The fixpoints of the sanitizer are exactly the portable names. */
  lemma FixpointIffPortable(x: string)
    ensures Sanitize(x) == x <==> Portable(x)
  {
    SanitizedIsWellFormed(x);
    if Portable(x) {
      PortableIsFixed(x);
    } else if WellFormed(x) {
      SecondPassMarksStem(x);
      var end := StemEnd(x);
      assert Sanitize(x)[end] == '_';
    }
  }

  lemma MarkedIsPortable(z: string, stem: string)
    requires WellFormed(z) && stem + "_" <= z
    requires forall i :: 0 <= i < |stem| ==> stem[i] != '.'
    ensures Portable(z)
  {
    assert z[..|stem|] == stem && z[|stem|] == (stem + "_")[|stem|];
    MarkedStem(z, |stem|);
  }

  lemma SecondPassIsPortable(y: string)
    requires WellFormed(y)
    ensures Portable(Sanitize(y))
  {
    if IsReservedStem(Stem(y)) {
      SanitizedIsWellFormed(y);
      SecondPassMarksStem(y);
      MarkedIsPortable(Sanitize(y), Stem(y));
    } else {
      PortableIsFixed(y);
    }
  }

  /** Two passes always reach a fixpoint, with no side condition. */
  lemma TwoPassesSuffice(x: string)
    ensures Sanitize(Sanitize(Sanitize(x))) == Sanitize(Sanitize(x))
    ensures Portable(Sanitize(Sanitize(x)))
  {
    SanitizedIsWellFormed(x);
    SecondPassIsPortable(Sanitize(x));
    PortableIsFixed(Sanitize(Sanitize(x)));
  }

  /** A name that only continues `kept` with a dotted extension has the stem of `kept`. */
  lemma StemOfExtended(kept: string, tail: string)
    requires tail == "" || tail[0] == '.'
    ensures Stem(kept + tail) == Stem(kept)
  {
    StemOfPrefix(kept + tail, kept);
    if tail == "" {
      assert kept + tail == kept;
    } else {
      assert (kept + tail)[|kept|] == '.';
    }
  }

  /** When the clamp cuts an over-long name, the stem of the result is a device name
      exactly when the whole kept part is one. */
  lemma StemOfClamped(d: string)
    requires ByteLen(d) > MAX_COMPONENT_BYTES && !IsReservedStem(Stem(d))
    ensures IsReservedStem(Stem(Clamp(d))) <==> IsReservedStem(TrimEnd(ClampedPart(d)))
  {
    ClampedPartFits(d);
    StemOfKept(d, TrimEnd(ClampedPart(d)));
    StemOfExtended(TrimEnd(ClampedPart(d)), if KeepsExtension(d) then "." + Extension(d) else "");
  }

  lemma StemOfKept(d: string, kept: string)
    requires kept <= d && !IsReservedStem(Stem(d))
    ensures IsReservedStem(Stem(kept)) <==> IsReservedStem(kept)
  {
    StemOfPrefix(d, kept);
    if StemEnd(kept) == |kept| {
      assert Stem(kept) == kept;
    } else if IsReservedStem(kept) {
      ReservedNames(kept);
    }
  }

  lemma PlainNamesAreNotReserved()
    ensures !IsReservedStem(Stem(FALLBACK_NAME)) && !IsReservedStem(Stem(""))
  {
    if IsReservedStem(Stem("")) { ReservedNames(Stem("")); }
    assert Stem(FALLBACK_NAME) == FALLBACK_NAME;
    if IsReservedStem(FALLBACK_NAME) { ReservedNames(FALLBACK_NAME); }
  }

  /** One pass leaves a device name exactly when the clamp shrinks an over-long name to it. */
  lemma StemOfSanitized(x: string)
    ensures IsReservedStem(Stem(Sanitize(x))) <==> CollapsesToDevice(Prepared(x))
  {
    PreparedShape(x);
    PlainNamesAreNotReserved();
    if ByteLen(Prepared(x)) > MAX_COMPONENT_BYTES {
      StemOfClamped(Prepared(x));
    }
  }

  // ---------------------------------------------------------------- what a caller can look for

  /** What the clamp cuts, and the bytes it leaves to it. */
  function CutPart(name: string): string {
    if KeepsExtension(name) then name[..AfterLastDot(name) - 1] else name
  }

  function CutBudget(name: string): nat {
    MAX_COMPONENT_BYTES - if KeepsExtension(name) then ByteLen(Extension(name)) + 1 else 0
  }

  /** The first `n` characters are a device name, and up to the cut only dots and spaces follow. */
  ghost predicate IsPadded(s: string, budget: nat, n: nat) {
    && n <= |s| && IsReservedStem(s[..n])
    && forall i :: n <= i < |s| && ByteLen(s[..i + 1]) <= budget ==> IsBlank(s[i])
  }

  /** A name that is too long, and begins with a device name that is padded up to the cut. */
  ghost predicate PaddedDevice(name: string) {
    ByteLen(name) > MAX_COMPONENT_BYTES && exists n :: IsPadded(CutPart(name), CutBudget(name), n)
  }

  lemma TrimsToDevice(s: string, budget: nat, n: nat)
    requires budget >= 28 && IsPadded(s, budget, n)
    ensures TrimEnd(Truncate(s, budget)) == s[..n]
  {
    var cut := Truncate(s, budget);
    var kept := TrimEnd(cut);
    ReservedNames(s[..n]);
    TruncateIsLongest(s, budget, s[..n]);
    forall i | n <= i < |cut| ensures IsBlank(cut[i]) {
      assert s[..i + 1] == cut[..i + 1];
      PrefixByteLen(s[..i + 1], cut);
    }
    assert cut[n - 1] == s[..n][n - 1];
    assert |kept| == n;
  }

  lemma DeviceIsPadded(s: string, budget: nat)
    requires IsReservedStem(TrimEnd(Truncate(s, budget)))
    ensures IsPadded(s, budget, |TrimEnd(Truncate(s, budget))|)
  {
    var cut, n := Truncate(s, budget), |TrimEnd(Truncate(s, budget))|;
    TruncateIsLongest(s, budget, "");
    assert s[..n] == TrimEnd(cut);
    forall i | n <= i < |s| && ByteLen(s[..i + 1]) <= budget ensures IsBlank(s[i]) {
      TruncateIsLongest(s, budget, s[..i + 1]);
      assert cut[i] == s[i];
    }
  }

  lemma ClampedPartIsCut(d: string, budget: nat)
    requires budget == CutBudget(d)
    ensures ClampedPart(d) == Truncate(CutPart(d), budget) && budget >= 28
  {
  }

  lemma CollapsesIffPadded(d: string)
    ensures CollapsesToDevice(d) <==> PaddedDevice(d)
  {
    ClampedPartIsCut(d, CutBudget(d));
    if PaddedDevice(d) {
      var n :| IsPadded(CutPart(d), CutBudget(d), n);
      TrimsToDevice(CutPart(d), CutBudget(d), n);
    } else if CollapsesToDevice(d) {
      DeviceIsPadded(CutPart(d), CutBudget(d));
    }
  }

  /** A name that gets its mark does not collapse. */
  lemma MarkedNeverCollapses(name: string)
    requires IsReservedStem(Stem(name))
    ensures !CollapsesToDevice(Dereserve(name))
  {
    var d, stem := Dereserve(name), Stem(name);
    ReservedNames(stem);
    ByteLenConcat(stem, "_");
    AsciiByteLen("_");
    assert stem + "_" <= d;
    ClampedPartKeepsMark(d, stem + "_", CutBudget(d));
    var kept := TrimEnd(ClampedPart(d));
    assert kept[|stem|] == '_';
    if IsReservedStem(kept) { ReservedNames(kept); }
  }

  /**
   * Sanitization is idempotent on an input exactly unless the name, its forbidden characters replaced and its end
   * trimmed, is over-long and begins with a padded device name that is not its stem.
   */
  lemma IdempotentIff(x: string)
    ensures var name := TrimEnd(Replace(x));
            Sanitize(Sanitize(x)) != Sanitize(x) <==> PaddedDevice(name) && !IsReservedStem(Stem(name))
    ensures ByteLen(Prepared(x)) <= MAX_COMPONENT_BYTES ==> Sanitize(Sanitize(x)) == Sanitize(x)
  {
    var name := TrimEnd(Replace(x));
    FixpointIffPortable(Sanitize(x));
    SanitizedIsWellFormed(x);
    StemOfSanitized(x);
    if IsReservedStem(Stem(name)) { MarkedNeverCollapses(name); } else { CollapsesIffPadded(name); }
  }

  /** A short extension survives the clamp. */
  lemma ExtensionSurvives(x: string)
    requires ByteLen(Prepared(x)) > MAX_COMPONENT_BYTES && KeepsExtension(Prepared(x))
    ensures var tail := "." + Extension(Prepared(x));
            |Sanitize(x)| >= |tail| && Sanitize(x)[|Sanitize(x)| - |tail|..] == tail
  {
    var d := Prepared(x);
    var kept := TrimEnd(ClampedPart(d));
    assert Sanitize(x) == kept + ("." + Extension(d));
  }

  // ---------------------------------------------------------------- the counterexample

  function Spaces(n: nat): string {
    seq(n, _ => ' ')
  }

  lemma {:induction false} SpacesByteLen(n: nat)
    ensures ByteLen(Spaces(n)) == n
  {
    if n > 0 {
      SpacesByteLen(n - 1);
      assert Spaces(n)[1..] == Spaces(n - 1);
    }
  }

  lemma {:induction false} TrimSpaces(s: string, n: nat)
    requires EndsClean(s)
    ensures TrimEnd(s + Spaces(n)) == s
  {
    if n == 0 {
      assert s + Spaces(0) == s;
      TrimEndOfClean(s);
    } else {
      TrimSpaces(s, n - 1);
      assert (s + Spaces(n))[..|s| + n - 1] == s + Spaces(n - 1);
    }
  }

  lemma LastDotUnique(s: string, n: nat)
    requires 0 < n <= |s| && s[n - 1] == '.'
    requires forall i :: n <= i < |s| ==> s[i] != '.'
    ensures AfterLastDot(s) == n
  {
  }

  lemma ExtensionAt(x: string, n: nat, ext: string)
    requires 0 < n <= |x| && x[n - 1] == '.' && x[n..] == ext
    requires forall i :: 0 <= i < |ext| ==> ext[i] != '.'
    ensures AfterLastDot(x) == n && Extension(x) == ext
  {
    forall i | n <= i < |x| ensures x[i] != '.' {
      assert x[i] == ext[i - n];
    }
    LastDotUnique(x, n);
  }

  lemma ExtensionOf(stem: string, ext: string)
    requires forall i :: 0 <= i < |ext| ==> ext[i] != '.'
    ensures AfterLastDot(stem + "." + ext) == |stem| + 1
    ensures Extension(stem + "." + ext) == ext
  {
    DotAt(stem, ".", ext, stem + "." + ext);
    ExtensionAt(stem + "." + ext, |stem| + 1, ext);
  }

  lemma DotAt(stem: string, dot: string, ext: string, x: string)
    requires |dot| == 1 && x == stem + dot + ext
    ensures |x| == |stem| + 1 + |ext| && x[|stem|] == dot[0] && x[|stem| + 1..] == ext
  {
  }

  lemma TruncateAscii(s: string, budget: nat)
    requires forall i :: 0 <= i < |s| ==> s[i] as int < 0x80
    requires budget <= |s|
    ensures Truncate(s, budget) == s[..budget]
  {
    AsciiByteLen(s[..budget]);
    TruncateIsLongest(s, budget, s[..budget]);
    AsciiByteLen(Truncate(s, budget));
  }

  lemma ClampKeepingExtension(x: string, stem: string, ext: string)
    requires ByteLen(x) > MAX_COMPONENT_BYTES && KeepsExtension(x)
    requires stem == x[..AfterLastDot(x) - 1] && ext == Extension(x) && ByteLen(ext) == |ext|
    ensures Clamp(x) == TrimEnd(Truncate(stem, MAX_COMPONENT_BYTES - |ext| - 1)) + ("." + ext)
  {
    PartKeepingExtension(x, stem, ext, AfterLastDot(x));
  }

  lemma PartKeepingExtension(x: string, stem: string, ext: string, n: nat)
    requires n == AfterLastDot(x) && KeepsExtension(x)
    requires stem == x[..n - 1] && ext == Extension(x) && ByteLen(ext) == |ext|
    ensures |ext| <= MAX_EXTENSION_BYTES && ClampedPart(x) == Truncate(stem, MAX_COMPONENT_BYTES - |ext| - 1)
  {
  }

  lemma ClampOfExtended(stem: string, ext: string)
    requires stem != "" && |stem| + 1 + |ext| > MAX_COMPONENT_BYTES && 0 < |ext| <= MAX_EXTENSION_BYTES
    requires forall i :: 0 <= i < |ext| ==> ext[i] as int < 0x80 && ext[i] != '.'
    ensures Clamp(stem + "." + ext) == TrimEnd(Truncate(stem, MAX_COMPONENT_BYTES - |ext| - 1)) + ("." + ext)
  {
    var x := stem + "." + ext;
    ByteLenBounds(x);
    AsciiByteLen(ext);
    ExtensionOf(stem, ext);
    assert x[..|stem|] == stem;
    ClampKeepingExtension(x, stem, ext);
  }

  /** The clamp of a space-padded name with a short extension drops the padding. */
  lemma PaddedNameCollapses(word: string, n: nat, ext: string)
    requires word != "" && EndsClean(word) && AsciiPlain(word)
    requires |ext| == 3 && AsciiPlain(ext)
    requires |word| + n > 250 && |word| <= 250
    ensures Clamp(word + Spaces(n) + "." + ext) == word + ("." + ext)
  {
    ClampOfExtended(word + Spaces(n), ext);
    PaddingIsTrimmed(word, n);
  }

  lemma PaddingIsTrimmed(word: string, n: nat)
    requires word != "" && EndsClean(word) && AsciiPlain(word) && |word| + n > 250 && |word| <= 250
    ensures TrimEnd(Truncate(word + Spaces(n), 250)) == word
  {
    var padded := word + Spaces(n);
    TruncateAscii(padded, 250);
    assert padded[..250] == word + Spaces(250 - |word|);
    TrimSpaces(word, 250 - |word|);
  }

  predicate AsciiPlain(s: string) {
    forall i :: 0 <= i < |s| ==> s[i] as int < 0x80 && s[i] != '.' && !IsForbidden(s[i])
  }

  lemma ConIsReserved()
    ensures IsReservedStem("CON")
  {
    assert ToUpper("CON") == "CON";
    assert DEVICE_NAMES[0] == "CON";
  }

  lemma StemWithExtension(word: string, ext: string)
    requires forall i :: 0 <= i < |word| ==> word[i] != '.'
    ensures Stem(word + "." + ext) == word
  {
    var s := word + "." + ext;
    assert s[|word|] == '.';
    assert forall i :: 0 <= i < |word| ==> s[i] == word[i];
  }

  lemma PlainIsUntouched(s: string)
    requires NoForbidden(s) && EndsClean(s)
    ensures TrimEnd(Replace(s)) == s
  {
    assert Replace(s) == s;
    TrimEndOfClean(s);
  }

  /** The documented idempotence fails: a padded device name is clamped back to the bare device name. */
  lemma NotIdempotent()
    ensures Sanitize("CON" + Spaces(260) + "." + "txt") == "CON" + ("." + "txt")
    ensures Sanitize("CON" + "." + "txt") == "CON_.txt"
  {
    PaddedFirstPass();
    SecondPassOnCon();
  }

  /** A name that is too long to be a device name comes through the first three stages unchanged. */
  lemma PreparedLongStem(word: string, ext: string)
    requires |word| > 7 && AsciiPlain(word) && |ext| > 0 && AsciiPlain(ext) && EndsClean(ext)
    ensures Prepared(word + "." + ext) == word + "." + ext
  {
    var x := word + "." + ext;
    assert EndsClean(x) by { assert x[|x| - 1] == ext[|ext| - 1]; }
    PlainIsUntouched(x);
    StemWithExtension(word, ext);
    if IsReservedStem(word) { ReservedNames(word); }
  }

  lemma PaddedFirstPass()
    ensures Sanitize("CON" + Spaces(260) + "." + "txt") == "CON" + ("." + "txt")
  {
    PreparedLongStem("CON" + Spaces(260), "txt");
    PaddedNameCollapses("CON", 260, "txt");
  }

  lemma SecondPassOnCon()
    ensures Sanitize("CON" + "." + "txt") == "CON_.txt"
  {
    var y := "CON" + "." + "txt";
    PlainIsUntouched(y);
    StemWithExtension("CON", "txt");
    ConIsReserved();
    assert y[3..] == ".txt";
    assert Prepared(y) == "CON_.txt";
    AsciiByteLen("CON_.txt");
  }
}
