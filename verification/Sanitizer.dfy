/** Cross-platform filename sanitization (packages/finalize-fs/src/sanitize.rs). */
module Sanitizer {
  import opened Utf8

  const MAX_COMPONENT_BYTES := 254
  const MAX_EXTENSION_BYTES := 24
  const FALLBACK_NAME := "download"
  const REPLACEMENT := '_'

  predicate IsForbidden(c: char) {
    || c as int < 0x20 || c as int == 0x7f
    || c == '<' || c == '>' || c == '"' || c == '|' || c == '?' || c == '*' || c == '/' || c == '\\' || c == ':'
  }

  function Replace(s: string): (r: string)
    ensures |r| == |s|
    ensures forall i :: 0 <= i < |s| ==> r[i] == (if IsForbidden(s[i]) then REPLACEMENT else s[i])
  {
    seq(|s|, i requires 0 <= i < |s| => if IsForbidden(s[i]) then REPLACEMENT else s[i])
  }

  predicate IsBlank(c: char) {
    c == '.' || c == ' '
  }

  /** `trim_end_matches(['.', ' '])`. */
  function TrimEnd(s: string): (r: string)
    ensures r <= s
    ensures r != "" ==> !IsBlank(r[|r| - 1])
    ensures forall i :: |r| <= i < |s| ==> IsBlank(s[i])
  {
    if s != "" && IsBlank(s[|s| - 1]) then TrimEnd(s[..|s| - 1]) else s
  }

  /** The index of the first dot, or the length when there is none. */
  function StemEnd(s: string): (n: nat)
    ensures n <= |s|
    ensures n < |s| ==> s[n] == '.'
    ensures forall i :: 0 <= i < n ==> s[i] != '.'
  {
    if s == "" || s[0] == '.' then 0 else 1 + StemEnd(s[1..])
  }

  function Stem(s: string): string {
    s[..StemEnd(s)]
  }

  /** `char::to_uppercase` as far as it can reach a letter of a device name: besides the ASCII
      letters only the dotless i (and the long s) have an ASCII capital. */
  function Upper(c: char): char {
    if 'a' <= c <= 'z' then (c as int - 32) as char
    else if c == '\U{0131}' then 'I'
    else if c == '\U{017F}' then 'S'
    else c
  }

  function ToUpper(s: string): string {
    seq(|s|, i requires 0 <= i < |s| => Upper(s[i]))
  }

  const DEVICE_NAMES: seq<string> := ["CON", "PRN", "AUX", "NUL", "CONIN$", "CONOUT$"]
  const PORT_PREFIXES: seq<string> := ["COM", "LPT"]
  const PORT_NUMBERS: string := "123456789\U{00B9}\U{00B2}\U{00B3}"

  predicate Listed(name: string, names: seq<string>)
    decreases |names|
  {
    names != [] && (name == names[0] || Listed(name, names[1..]))
  }

  predicate IsReservedStem(stem: string) {
    var upper := ToUpper(stem);
    || Listed(upper, DEVICE_NAMES)
    || (|upper| == 4 && Listed(upper[..3], PORT_PREFIXES) && upper[3] in PORT_NUMBERS)
  }

  function Dereserve(name: string): string {
    var end := StemEnd(name);
    if IsReservedStem(name[..end]) then name[..end] + [REPLACEMENT] + name[end..] else name
  }

  /** The longest whole-character prefix within a byte budget. */
  function Truncate(s: string, budget: nat): string {
    if s == "" || Width(s[0]) > budget then ""
    else [s[0]] + Truncate(s[1..], budget - Width(s[0]))
  }

  /** One past the last dot, or 0 when there is none. */
  function AfterLastDot(s: string): (n: nat)
    ensures n <= |s|
    ensures n > 0 ==> s[n - 1] == '.'
    ensures forall i :: n <= i < |s| ==> s[i] != '.'
  {
    if s == "" then 0 else if s[|s| - 1] == '.' then |s| else AfterLastDot(s[..|s| - 1])
  }

  function Extension(s: string): string {
    s[AfterLastDot(s)..]
  }

  /** The last dot is not at the start and what follows it is short enough to be worth keeping. */
  predicate KeepsExtension(s: string) {
    AfterLastDot(s) > 1 && 0 < ByteLen(Extension(s)) <= MAX_EXTENSION_BYTES
  }

  /** What clamping keeps in front of the extension, before it trims. */
  function ClampedPart(name: string): string {
    if KeepsExtension(name)
    then Truncate(name[..AfterLastDot(name) - 1], MAX_COMPONENT_BYTES - ByteLen(Extension(name)) - 1)
    else Truncate(name, MAX_COMPONENT_BYTES)
  }

  function Clamp(name: string): string {
    if ByteLen(name) <= MAX_COMPONENT_BYTES then name
    else TrimEnd(ClampedPart(name)) + (if KeepsExtension(name) then "." + Extension(name) else "")
  }

  /** The first three stages. */
  function Prepared(component: string): string {
    Dereserve(TrimEnd(Replace(component)))
  }

  function Sanitize(component: string): string {
    var clamped := Clamp(Prepared(component));
    if clamped == "" then FALLBACK_NAME else clamped
  }

  // ---------------------------------------------------------------- the backward byte scan

  method TruncateUtf8(value: string, maxBytes: nat) returns (r: string)
    ensures r == Truncate(value, maxBytes)
  {
    TruncateIsLongest(value, maxBytes, value);
    if ByteLen(value) <= maxBytes {
      return value;
    }
    var bytes := Encode(value);
    var end: nat := maxBytes;
    while end > 0 && !IsCharBoundary(bytes, end)
      invariant end <= maxBytes
      invariant forall j: nat :: end < j <= maxBytes ==> !IsCharBoundary(bytes, j)
    {
      end := end - 1;
    }
    r := SliceTo(value, end);
    TruncateIsLongest(value, maxBytes, r);
    PrefixIsBoundary(Truncate(value, maxBytes), value);
    PrefixByteLen(r, Truncate(value, maxBytes));
  }

  lemma {:induction false} TruncateIsLongest(s: string, budget: nat, p: string)
    ensures Truncate(s, budget) <= s
    ensures ByteLen(Truncate(s, budget)) <= budget
    ensures p <= s && ByteLen(p) <= budget ==> p <= Truncate(s, budget)
    decreases s
  {
    if s != "" && Width(s[0]) <= budget {
      var rest := Truncate(s[1..], budget - Width(s[0]));
      TruncateIsLongest(s[1..], budget - Width(s[0]), if p == "" then "" else p[1..]);
      assert Truncate(s, budget)[1..] == rest;
      if p != "" && p <= s && ByteLen(p) <= budget {
        assert p[1..] <= s[1..];
        assert p == [p[0]] + p[1..];
      }
    }
  }
}
