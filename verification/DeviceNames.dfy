/** The sanitizer's tables by their members: which names are devices, and what becomes of them. */
module DeviceNames {
  import opened Utf8
  import opened Sanitizer
  import opened SanitizerProofs

  /** `c` is the letter `l` in either case; the dotless i and the long s have an ASCII capital too. */
  predicate IsCaseOf(c: char, l: char) {
    || c == l
    || ('A' <= l <= 'Z' && c as int == l as int + 32)
    || (l == 'I' && c == '\U{0131}') || (l == 'S' && c == '\U{017F}')
  }

  predicate Spells(s: string, word: string) {
    |s| == |word| && forall i :: 0 <= i < |s| ==> IsCaseOf(s[i], word[i])
  }

  /** The digits but zero, and the superscripts one, two and three. */
  predicate IsPortNumber(c: char) {
    '1' <= c <= '9' || c == '\U{00B9}' || c == '\U{00B2}' || c == '\U{00B3}'
  }

  predicate IsPort(s: string) {
    |s| == 4 && (Spells(s[..3], "COM") || Spells(s[..3], "LPT")) && IsPortNumber(s[3])
  }

  predicate IsDevice(s: string) {
    || Spells(s, "CON") || Spells(s, "PRN") || Spells(s, "AUX") || Spells(s, "NUL")
    || Spells(s, "CONIN$") || Spells(s, "CONOUT$") || IsPort(s)
  }

  predicate Unsafe(c: char) {
    c as int < 0x20 || c as int == 0x7f || c in "<>\"|?*/\\:"
  }

  // ---------------------------------------------------------------- the tables

  /** The words of the tables are written in capitals and the dollar sign. */
  predicate Capitals(word: string) {
    forall i :: 0 <= i < |word| ==> 'A' <= word[i] <= 'Z' || word[i] == '$'
  }

  lemma UpperIff(c: char, l: char)
    requires 'A' <= l <= 'Z' || l == '$'
    ensures Upper(c) == l <==> IsCaseOf(c, l)
  {
  }

  lemma PortNumberIff(c: char)
    ensures Upper(c) in PORT_NUMBERS <==> IsPortNumber(c)
  {
    var n := PORT_NUMBERS;
    assert n[0] == '1' && n[1] == '2' && n[2] == '3' && n[3] == '4' && n[4] == '5' && n[5] == '6';
    assert n[6] == '7' && n[7] == '8' && n[8] == '9';
    assert n[9] == '\U{00B9}' && n[10] == '\U{00B2}' && n[11] == '\U{00B3}' && |n| == 12;
  }

  lemma SpellsIff(s: string, word: string)
    requires Capitals(word)
    ensures ToUpper(s) == word <==> Spells(s, word)
  {
    if |s| == |word| {
      forall i | 0 <= i < |s| ensures ToUpper(s)[i] == word[i] <==> IsCaseOf(s[i], word[i]) {
        UpperIff(s[i], word[i]);
      }
    }
  }

  lemma ListedStep(name: string, word: string, words: seq<string>)
    ensures Listed(name, [word] + words) <==> name == word || Listed(name, words)
  {
    assert ([word] + words)[1..] == words;
  }

  lemma ListedDevice(name: string)
    ensures Listed(name, DEVICE_NAMES)
       <==> name == "CON" || name == "PRN" || name == "AUX" || name == "NUL" || name == "CONIN$" || name == "CONOUT$"
  {
    ListedStep(name, "CONOUT$", []);
    ListedStep(name, "CONIN$", ["CONOUT$"]);
    ListedStep(name, "NUL", ["CONIN$", "CONOUT$"]);
    ListedStep(name, "AUX", ["NUL", "CONIN$", "CONOUT$"]);
    ListedStep(name, "PRN", ["AUX", "NUL", "CONIN$", "CONOUT$"]);
    ListedStep(name, "CON", ["PRN", "AUX", "NUL", "CONIN$", "CONOUT$"]);
    SameWords();
  }

  lemma SameWords()
    ensures DEVICE_NAMES == ["CON"] + ["PRN", "AUX", "NUL", "CONIN$", "CONOUT$"]
    ensures ["PRN", "AUX", "NUL", "CONIN$", "CONOUT$"] == ["PRN"] + ["AUX", "NUL", "CONIN$", "CONOUT$"]
    ensures ["AUX", "NUL", "CONIN$", "CONOUT$"] == ["AUX"] + ["NUL", "CONIN$", "CONOUT$"]
    ensures ["NUL", "CONIN$", "CONOUT$"] == ["NUL"] + ["CONIN$", "CONOUT$"]
    ensures ["CONIN$", "CONOUT$"] == ["CONIN$"] + ["CONOUT$"] && ["CONOUT$"] == ["CONOUT$"] + []
  {
  }

  lemma ListedPrefix(name: string)
    ensures Listed(name, PORT_PREFIXES) <==> name == "COM" || name == "LPT"
  {
    assert PORT_PREFIXES[1..] == ["LPT"] && ["LPT"][1..] == [];
  }

  lemma PortIff(s: string)
    requires |s| == 4
    ensures IsPort(s) <==> Listed(ToUpper(s)[..3], PORT_PREFIXES) && ToUpper(s)[3] in PORT_NUMBERS
  {
    assert ToUpper(s)[..3] == ToUpper(s[..3]);
    ListedPrefix(ToUpper(s[..3]));
    SpellsIff(s[..3], "COM");
    SpellsIff(s[..3], "LPT");
    PortNumberIff(s[3]);
  }

  /** The reserved stems are the device names, in whatever case. */
  lemma ReservedIff(s: string)
    ensures IsReservedStem(s) <==> IsDevice(s)
  {
    ListedDevice(ToUpper(s));
    SpellsIff(s, "CON");
    SpellsIff(s, "PRN");
    SpellsIff(s, "AUX");
    SpellsIff(s, "NUL");
    SpellsIff(s, "CONIN$");
    SpellsIff(s, "CONOUT$");
    if |s| == 4 { PortIff(s); }
  }

  lemma ForbiddenIff(c: char)
    ensures IsForbidden(c) <==> Unsafe(c)
  {
  }

  // ---------------------------------------------------------------- what becomes of a name

  function Underscored(s: string): (r: string)
    ensures |r| == |s| && forall i :: 0 <= i < |s| ==> r[i] == if Unsafe(s[i]) then '_' else s[i]
  {
    seq(|s|, i requires 0 <= i < |s| => if Unsafe(s[i]) then '_' else s[i])
  }

  /** An unsafe character counts as an underscore, in every name. */
  lemma UnsafeAreUnderscores(x: string)
    ensures Sanitize(x) == Sanitize(Underscored(x))
  {
    forall i | 0 <= i < |x| ensures Replace(x)[i] == Replace(Underscored(x))[i] {
      ForbiddenIff(x[i]);
      ForbiddenIff('_');
    }
    assert Replace(x) == Replace(Underscored(x));
  }

  /** No unsafe character and no dot or space at the end; `stem` is what stands before the first dot. */
  ghost predicate IsSafe(stem: string, rest: string) {
    && (forall i :: 0 <= i < |stem| ==> stem[i] != '.') && (rest == "" || rest[0] == '.')
    && (forall i :: 0 <= i < |stem + rest| ==> !Unsafe((stem + rest)[i]))
    && stem + rest != "" && (stem + rest)[|stem + rest| - 1] != '.' && (stem + rest)[|stem + rest| - 1] != ' '
  }

  lemma StemIs(stem: string, rest: string)
    requires (forall i :: 0 <= i < |stem| ==> stem[i] != '.') && (rest == "" || rest[0] == '.')
    ensures StemEnd(stem + rest) == |stem| && Stem(stem + rest) == stem
  {
    var s := stem + rest;
    assert forall i :: 0 <= i < |stem| ==> s[i] == stem[i];
    assert rest != "" ==> s[|stem|] == '.';
  }

  lemma SafeIsClean(stem: string, rest: string)
    requires IsSafe(stem, rest)
    ensures NoForbidden(stem + rest) && EndsClean(stem + rest)
  {
    forall i | 0 <= i < |stem + rest| ensures !IsForbidden((stem + rest)[i]) {
      ForbiddenIff((stem + rest)[i]);
    }
  }

  lemma PreparedSafe(stem: string, rest: string)
    requires IsSafe(stem, rest)
    ensures Prepared(stem + rest) == if IsDevice(stem) then stem + "_" + rest else stem + rest
  {
    var name := stem + rest;
    SafeIsClean(stem, rest);
    PlainIsUntouched(name);
    StemIs(stem, rest);
    ReservedIff(stem);
    assert name[..|stem|] == stem && name[|stem|..] == rest;
    if IsDevice(stem) {
      assert Prepared(name) == stem + [REPLACEMENT] + rest;
    }
  }

  /** A device name in any case gets an underscore behind its stem, whatever its extension; other names stay. */
  lemma DevicesAreMarked(stem: string, rest: string)
    requires IsSafe(stem, rest) && ByteLen(stem + rest) <= 253
    ensures Sanitize(stem + rest) == if IsDevice(stem) then stem + "_" + rest else stem + rest
  {
    PreparedSafe(stem, rest);
    InsertedByteLen(stem, rest);
    assert stem + [REPLACEMENT] + rest == stem + "_" + rest;
  }

  lemma InsertedByteLen(stem: string, rest: string)
    ensures ByteLen(stem + [REPLACEMENT] + rest) == ByteLen(stem + rest) + 1
  {
    ByteLenConcat(stem, rest);
    ByteLenConcat(stem + [REPLACEMENT], rest);
    ByteLenConcat(stem, [REPLACEMENT]);
    assert [REPLACEMENT][1..] == "";
  }

  lemma SafeIff(name: string)
    ensures NoForbidden(name) <==> forall i :: 0 <= i < |name| ==> !Unsafe(name[i])
  {
    forall i | 0 <= i < |name| ensures IsForbidden(name[i]) <==> Unsafe(name[i]) {
      ForbiddenIff(name[i]);
    }
  }

  lemma PortableIff(name: string, stem: string)
    requires Stem(name) == stem
    ensures Portable(name) <==> WellFormed(name) && !IsDevice(stem)
  {
    ReservedIff(stem);
  }

  lemma WellFormedIff(stem: string, rest: string, name: string)
    requires (forall i :: 0 <= i < |stem| ==> stem[i] != '.') && (rest == "" || rest[0] == '.') && name == stem + rest
    ensures WellFormed(name) <==> IsSafe(stem, rest) && ByteLen(name) <= 254
  {
    SafeIff(name);
  }

  /** The unchanged names: safe, at most 254 bytes, and no device. */
  lemma UnchangedIff(stem: string, rest: string)
    requires (forall i :: 0 <= i < |stem| ==> stem[i] != '.') && (rest == "" || rest[0] == '.')
    ensures Sanitize(stem + rest) == stem + rest
       <==> IsSafe(stem, rest) && ByteLen(stem + rest) <= 254 && !IsDevice(stem)
  {
    FixpointIffPortable(stem + rest);
    StemIs(stem, rest);
    PortableIff(stem + rest, stem);
    WellFormedIff(stem, rest, stem + rest);
  }

  /** Of dots and spaces alone nothing is left, and the name is "download". */
  lemma BlankIsDownload(x: string)
    requires forall i :: 0 <= i < |x| ==> x[i] == '.' || x[i] == ' '
    ensures Sanitize(x) == "download"
  {
    assert Replace(x) == x;
    assert TrimEnd(x) == "";
    PlainNamesAreNotReserved();
    assert Prepared(x) == "";
  }

  /** A dot or space at the end is dropped, from every name. */
  lemma EndIsDropped(x: string, c: char)
    requires c == '.' || c == ' '
    ensures Sanitize(x + [c]) == Sanitize(x)
  {
    var y := x + [c];
    assert Replace(y) == Replace(x) + [c];
    assert Replace(y)[..|Replace(y)| - 1] == Replace(x);
  }

  // ---------------------------------------------------------------- long names

  /** The last dot is at `k`, not at the start, and 1 to 24 bytes follow it. */
  ghost predicate HasShortExtension(d: string, k: nat) {
    && 0 < k < |d| && d[k] == '.' && (forall i :: k < i < |d| ==> d[i] != '.')
    && 1 <= ByteLen(d[k + 1..]) <= 24
  }

  /** What is kept in any case: a short extension with its dot, if there is one. */
  ghost predicate IsKeptTail(d: string, stem: string, tail: string) {
    && d == stem + tail
    && (if tail == "" then forall k :: !HasShortExtension(d, k) else HasShortExtension(d, |stem|))
  }

  lemma KeptTail(d: string, stem: string, tail: string)
    requires IsKeptTail(d, stem, tail)
    ensures KeepsExtension(d) <==> tail != ""
    ensures tail != "" ==> AfterLastDot(d) == |stem| + 1 && tail == "." + Extension(d) && d[..|stem|] == stem
  {
    var n := AfterLastDot(d);
    if tail == "" {
      if KeepsExtension(d) { assert HasShortExtension(d, n - 1); }
    } else {
      LastDotUnique(d, |stem| + 1);
      assert d[|stem| + 1..] == tail[1..] && tail[0] == d[|stem|];
    }
  }

  /** The longest prefix of `stem` that leaves room for the tail. */
  ghost predicate IsLongestFit(cut: string, stem: string, tail: string) {
    && cut <= stem && ByteLen(cut) + ByteLen(tail) <= 254
    && forall p :: p <= stem && ByteLen(p) + ByteLen(tail) <= 254 ==> p <= cut
  }

  /** `kept` is `cut` without the dots and spaces at its end. */
  ghost predicate IsTrimmed(kept: string, cut: string) {
    && kept <= cut && (forall i :: |kept| <= i < |cut| ==> cut[i] == '.' || cut[i] == ' ')
    && (kept != "" ==> kept[|kept| - 1] != '.' && kept[|kept| - 1] != ' ')
  }

  lemma DotTail(ext: string)
    ensures ByteLen("." + ext) == 1 + ByteLen(ext)
  {
    assert ("." + ext)[1..] == ext;
  }

  lemma CutFits(stem: string, tail: string, budget: nat)
    requires budget + ByteLen(tail) == 254
    ensures IsLongestFit(Truncate(stem, budget), stem, tail)
  {
    TruncateIsLongest(stem, budget, "");
    forall p | p <= stem && ByteLen(p) + ByteLen(tail) <= 254 ensures p <= Truncate(stem, budget) {
      TruncateIsLongest(stem, budget, p);
    }
  }

  lemma ClampIs(d: string, stem: string, tail: string) returns (cut: string)
    requires ByteLen(d) > 254 && IsKeptTail(d, stem, tail)
    ensures IsLongestFit(cut, stem, tail) && cut == ClampedPart(d) && Clamp(d) == TrimEnd(cut) + tail
  {
    KeptTail(d, stem, tail);
    if tail == "" {
      assert stem + tail == stem;
      cut := Truncate(stem, 254);
      CutFits(stem, tail, 254);
      assert TrimEnd(cut) + "" == TrimEnd(cut);
    } else {
      DotTail(Extension(d));
      cut := Truncate(stem, 254 - ByteLen(tail));
      CutFits(stem, tail, 254 - ByteLen(tail));
    }
  }

  /**
   * A safe name that is too long, `d` with its underscore if it is a device, keeps a short extension and in front of
   * it all that fits, less the dots and spaces that the cut leaves at the end.
   */
  lemma LongNamesAreCut(word: string, rest: string, d: string, stem: string, tail: string)
    returns (cut: string, kept: string)
    requires IsSafe(word, rest) && d == (if IsDevice(word) then word + "_" + rest else word + rest)
    requires ByteLen(d) > 254 && IsKeptTail(d, stem, tail)
    ensures IsLongestFit(cut, stem, tail) && IsTrimmed(kept, cut)
    ensures Sanitize(word + rest) == if kept + tail == "" then "download" else kept + tail
  {
    PreparedSafe(word, rest);
    cut := ClampIs(d, stem, tail);
    kept := TrimEnd(cut);
    assert forall i :: |kept| <= i < |cut| ==> IsBlank(cut[i]);
  }
}
