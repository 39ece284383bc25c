/** The equations of `path.resolve` on strings, which leave no other function. */
module PathProofs {
  import opened Texts
  import opened PathAlgebra

  // ---------------------------------------------------------------- components

  lemma {:induction false} NormalizeConcat(done: seq<Text>, a: seq<Text>, b: seq<Text>)
    ensures Normalize(done, a + b) == Normalize(Normalize(done, a), b)
    decreases |a|
  {
    if a == [] {
      assert a + b == b;
    } else {
      assert (a + b)[0] == a[0] && (a + b)[1..] == a[1..] + b;
      NormalizeConcat(done, a[1..], b);
      NormalizeConcat(Parent(done), a[1..], b);
      NormalizeConcat(done + [a[0]], a[1..], b);
    }
  }

  /** One more unit in front of what has been split. */
  function Onto(c: Unit, sep: Unit, parts: seq<Text>): seq<Text>
    requires parts != []
  {
    if c == sep then [[]] + parts else [[c] + parts[0]] + parts[1..]
  }

  lemma OntoConcat(c: Unit, sep: Unit, parts: seq<Text>, more: seq<Text>)
    requires parts != []
    ensures Onto(c, sep, parts + more) == Onto(c, sep, parts) + more
  {
    assert (parts + more)[0] == parts[0] && (parts + more)[1..] == parts[1..] + more;
  }

  lemma {:induction false} SplitConcat(a: Text, sep: Unit, b: Text)
    ensures Split(a + [sep] + b, sep) == Split(a, sep) + Split(b, sep)
    decreases |a|
  {
    var whole := a + [sep] + b;
    if a == [] {
      assert whole[0] == sep && whole[1..] == b;
    } else {
      assert whole[0] == a[0] && whole[1..] == a[1..] + [sep] + b;
      SplitConcat(a[1..], sep, b);
      OntoConcat(a[0], sep, Split(a[1..], sep), Split(b, sep));
    }
  }

  // ---------------------------------------------------------------- the equations

  lemma ResolveContinued(a: Text, b: Text)
    ensures Resolve(a + [SLASH] + b) == Normalize(Resolve(a), Split(b, SLASH))
  {
    SplitConcat(a, SLASH, b);
    NormalizeConcat([], Split(a, SLASH), Split(b, SLASH));
  }

  /** Nothing, and the root. */
  lemma ResolveRoot()
    ensures Resolve([]) == [] && Resolve([SLASH]) == []
  {
    assert [] + [SLASH] + [] == [SLASH];
    ResolveContinued([], []);
    assert Split([], SLASH) == [[]];
    assert Normalize([], [[]]) == Normalize([], [[]][1..]);
  }

  lemma One(done: seq<Text>, c: Text)
    requires Free(c, SLASH)
    ensures Normalize(done, Split(c, SLASH))
            == if c == [] || c == HERE then done else if c == UP then Parent(done) else done + [c]
  {
    SplitFree(c, SLASH);
    assert [c][1..] == [];
  }

  /** Continued by a slash and a name: the resolution with that name appended. */
  lemma ResolveName(raw: Text, name: Text)
    requires name != [] && name != [46] && name != [46, 46] && forall i :: 0 <= i < |name| ==> name[i] != SLASH
    ensures Resolve(raw + [SLASH] + name) == Resolve(raw) + [name]
  {
    ResolveContinued(raw, name);
    One(Resolve(raw), name);
  }

  /** Continued by `/..`: the resolution without its last component; above the root there is nothing. */
  lemma ResolveUp(raw: Text)
    ensures Resolve(raw + [SLASH] + [46, 46])
            == if Resolve(raw) == [] then [] else Resolve(raw)[..|Resolve(raw)| - 1]
  {
    ResolveContinued(raw, UP);
    One(Resolve(raw), UP);
  }

  /** An empty component or a `.`, wherever it is inserted or removed, changes nothing. */
  lemma ResolveIgnores(a: Text, c: Text, b: Text)
    requires c == [] || c == [46]
    ensures Resolve(a + [SLASH] + c + [SLASH] + b) == Resolve(a + [SLASH] + b)
    ensures Resolve(a + [SLASH] + c) == Resolve(a)
  {
    ResolveContinued(a, c);
    One(Resolve(a), c);
    ResolveContinued(a + [SLASH] + c, b);
    ResolveContinued(a, b);
  }

  /** What follows sees only the resolution of what precedes it. */
  lemma ResolveDepends(a: Text, other: Text, b: Text)
    requires Resolve(a) == Resolve(other)
    ensures Resolve(a + [SLASH] + b) == Resolve(other + [SLASH] + b)
  {
    ResolveContinued(a, b);
    ResolveContinued(other, b);
  }

  /** A trailing slash is nothing: a directory named with it is the same directory. */
  lemma ResolveTrailing(p: Path)
    ensures Resolve(Show(p) + [SLASH]) == p
  {
    assert Show(p) + [SLASH] + [] == Show(p) + [SLASH];
    ResolveIgnores(Show(p), [], []);
    ResolveShow(p);
  }

  /** `path.join` appends the string to the path and resolves. */
  lemma JoinIsResolve(p: Path, s: Text)
    ensures JoinPath(p, s) == Resolve(Show(p) + [SLASH] + s)
  {
    ResolveContinued(Show(p), s);
    ResolveShow(p);
    if s == [] { One(p, []); }
  }

  // ---------------------------------------------------------------- and there is no other function

  /** What one more component without a slash makes of a path. */
  function Next(p: seq<Text>, c: Text): seq<Text> {
    if c == [] || c == [46] then p
    else if c == [46, 46] then if p == [] then [] else p[..|p| - 1]
    else p + [c]
  }

  predicate Continues(f: Text -> seq<Text>, raw: Text, c: Text) {
    f(raw + [SLASH] + c) == Next(f(raw), c)
  }

  /** The equations above, for any function on strings. */
  ghost predicate ResolvesLike(f: Text -> seq<Text>) {
    f([]) == [] && forall raw, c :: (forall i :: 0 <= i < |c| ==> c[i] != SLASH) ==> Continues(f, raw, c)
  }

  lemma ResolveSatisfies()
    ensures ResolvesLike(Resolve)
  {
    ResolveRoot();
    forall raw: Text, c: Text | forall i :: 0 <= i < |c| ==> c[i] != SLASH ensures Continues(Resolve, raw, c) {
      ResolveContinued(raw, c);
      One(Resolve(raw), c);
    }
  }

  /** The place of the last slash. */
  lemma {:induction false} LastSlash(raw: Text) returns (k: nat)
    requires IsAbsolute(raw)
    ensures k < |raw| && raw[k] == SLASH && forall i :: k < i < |raw| ==> raw[i] != SLASH
    ensures raw == raw[..k] + [SLASH] + raw[k + 1..]
    decreases |raw|
  {
    if raw[|raw| - 1] == SLASH {
      k := |raw| - 1;
    } else {
      assert raw[..|raw| - 1] != [];
      k := LastSlash(raw[..|raw| - 1]);
    }
  }

  /** On every absolute string a function with these equations is `path.resolve`. */
  lemma {:induction false} OnlyResolve(f: Text -> seq<Text>, raw: Text)
    requires ResolvesLike(f) && (raw == [] || IsAbsolute(raw))
    ensures f(raw) == Resolve(raw)
    decreases |raw|
  {
    ResolveSatisfies();
    if raw != [] {
      var k := LastSlash(raw);
      var front, c := raw[..k], raw[k + 1..];
      assert forall i :: 0 <= i < |c| ==> c[i] != SLASH;
      OnlyResolve(f, front);
      assert Continues(f, front, c) && Continues(Resolve, front, c);
    }
  }
}
