/** What `parseAllowedSaveDirs` of src/server/download-path-policy.ts makes of a setting. */
module AllowedRoots {
  import opened Options
  import opened Texts
  import opened PathAlgebra
  import opened Occurrences
  import opened PathPolicy

  /** The white space of ECMAScript: tabs, spaces, line ends and the byte order mark. */
  predicate IsWhite(c: Unit) {
    c in {9, 10, 11, 12, 13, 32, 0xa0, 0x1680, 0x2000, 0x2001, 0x2002, 0x2003, 0x2004, 0x2005, 0x2006, 0x2007, 0x2008,
          0x2009, 0x200a, 0x2028, 0x2029, 0x202f, 0x205f, 0x3000, 0xfeff}
  }

  lemma SpaceIff(c: Unit)
    ensures IsSpace(c) <==> IsWhite(c)
  {
  }

  predicate AllWhite(s: Text) {
    forall i :: 0 <= i < |s| ==> IsWhite(s[i])
  }

  lemma AddLeft(c: Unit, left: Text, inner: Text, right: Text)
    requires IsWhite(c) && AllWhite(left)
    ensures AllWhite([c] + left) && [c] + (left + inner + right) == ([c] + left) + inner + right
  {
  }

  lemma AddRight(c: Unit, left: Text, inner: Text, right: Text)
    requires IsWhite(c) && AllWhite(right)
    ensures AllWhite(right + [c]) && left + inner + right + [c] == left + inner + (right + [c])
  {
  }

  /** Trimming takes white space off both ends, and none is left there. */
  lemma {:induction false} TrimIs(s: Text) returns (left: Text, right: Text)
    ensures var inner := Trim(s);
            && s == left + inner + right && AllWhite(left) && AllWhite(right)
            && (inner != [] ==> !IsWhite(inner[0]) && !IsWhite(inner[|inner| - 1]))
    decreases |s|
  {
    left, right := [], [];
    if s != [] {
      var first, last := s[0], s[|s| - 1];
      SpaceIff(first);
      SpaceIff(last);
      if IsSpace(first) {
        left, right := TrimIs(s[1..]);
        AddLeft(first, left, Trim(s), right);
        assert s == [first] + s[1..];
        left := [first] + left;
      } else if IsSpace(last) {
        left, right := TrimIs(s[..|s| - 1]);
        AddRight(last, left, Trim(s), right);
        assert s == s[..|s| - 1] + [last];
        right := right + [last];
      }
    }
  }

  /** The entry that part `i` of the setting holds, if it is not blank. */
  predicate HoldsEntry(parts: seq<Text>, i: int, entry: Text) {
    0 <= i < |parts| && Trim(parts[i]) == entry && entry != []
  }

  lemma {:induction false} EntriesIff(parts: seq<Text>, entry: Text)
    ensures entry in Entries(parts) <==> exists i :: HoldsEntry(parts, i, entry)
  {
    if parts != [] {
      var n := |parts| - 1;
      EntriesIff(parts[..n], entry);
      if i :| HoldsEntry(parts, i, entry) {
        if i < n {
          assert HoldsEntry(parts[..n], i, entry);
        }
      }
      if i :| HoldsEntry(parts[..n], i, entry) {
        assert HoldsEntry(parts, i, entry);
      }
      if Trim(parts[n]) == entry != [] {
        assert HoldsEntry(parts, n, entry);
      }
    }
  }

  lemma {:induction false} AllAbsoluteIff(entries: seq<Text>)
    ensures AllAbsolute(entries).Ok? <==> forall e :: e in entries ==> IsReadable(e)
    ensures AllAbsolute(entries).Ok? ==> forall p :: p in AllAbsolute(entries).value <==> p in Resolutions(entries)
  {
    if entries != [] {
      var n := |entries| - 1;
      AllAbsoluteIff(entries[..n]);
      AbsoluteIff(entries[n]);
      assert forall e :: e in entries <==> e in entries[..n] || e == entries[n];
    }
  }

  function Resolutions(entries: seq<Text>): set<seq<Text>> {
    set e | e in entries :: Resolve(e)
  }

  /**
   * The roots of a setting are the resolutions of its trimmed entries that are not blank, and one entry that is not an
   * absolute path refuses them all.
   */
  lemma RootsIff(parts: seq<Text>)
    ensures var paths := AllAbsolute(Entries(parts));
            && (paths.Ok? <==> forall i, e :: HoldsEntry(parts, i, e) ==> IsReadable(e))
            && (paths.Ok? ==>
                  forall p :: p in Firsts(paths.value) <==> exists i, e :: HoldsEntry(parts, i, e) && Resolve(e) == p)
  {
    AllAbsoluteIff(Entries(parts));
    forall e ensures e in Entries(parts) <==> exists i :: HoldsEntry(parts, i, e) {
      EntriesIff(parts, e);
    }
  }
}
