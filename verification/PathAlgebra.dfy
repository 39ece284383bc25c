/** POSIX paths as Node's `path` module treats them: absolute paths are lists of component names. */
module PathAlgebra {
  import opened Texts

  const SLASH: Unit := 47
  const NUL: Unit := 0
  const HERE: Text := [46]
  const UP: Text := [46, 46]

  /** What a normalised path is made of. */
  predicate IsName(c: Text) {
    c != [] && c != HERE && c != UP && Free(c, SLASH)
  }

  predicate IsPath(p: seq<Text>) {
    forall i :: 0 <= i < |p| ==> IsName(p[i])
  }

  type Path = p: seq<Text> | IsPath(p)

  function Parent(p: seq<Text>): seq<Text> {
    if p == [] then [] else p[..|p| - 1]
  }

  /** The components of a path continued with raw components. */
  function Normalize(done: seq<Text>, parts: seq<Text>): seq<Text>
    decreases |parts|
  {
    if parts == [] then done
    else if parts[0] == [] || parts[0] == HERE then Normalize(done, parts[1..])
    else if parts[0] == UP then Normalize(Parent(done), parts[1..])
    else Normalize(done + [parts[0]], parts[1..])
  }

  predicate IsAbsolute(raw: Text) {
    raw != [] && raw[0] == SLASH
  }

  /** `path.resolve` of an absolute string. */
  function Resolve(raw: Text): seq<Text> {
    Normalize([], Split(raw, SLASH))
  }

  /** The string of a path. */
  function Show(p: seq<Text>): Text {
    if p == [] then [SLASH] else [SLASH] + Join(p, SLASH)
  }

  /** `path.join` of a path and a relative string. */
  function JoinPath(p: seq<Text>, s: Text): seq<Text> {
    if s == [] then p else Normalize(p, Split(s, SLASH))
  }

  function Common(a: seq<Text>, b: seq<Text>): (k: nat)
    ensures k <= |a| && k <= |b| && a[..k] == b[..k]
    ensures k < |a| && k < |b| ==> a[k] != b[k]
  {
    if a == [] || b == [] || a[0] != b[0] then 0
    else
      var k := Common(a[1..], b[1..]);
      assert a[..k + 1] == [a[0]] + a[1..][..k] && b[..k + 1] == [b[0]] + b[1..][..k];
      k + 1
  }

  function Ups(n: nat): (u: seq<Text>)
    ensures |u| == n && forall i :: 0 <= i < n ==> u[i] == UP
  {
    seq(n, _ => UP)
  }

  /** The steps from one path to another: up to the common part, then down. */
  function Steps(from: seq<Text>, to: seq<Text>): seq<Text> {
    var k := Common(from, to);
    Ups(|from| - k) + to[k..]
  }

  /** `path.relative`. */
  function Relative(from: seq<Text>, to: seq<Text>): Text {
    var steps := Steps(from, to);
    if steps == [] then [] else Join(steps, SLASH)
  }

  predicate StartsWith(s: Text, prefix: Text) {
    prefix <= s
  }

  /** `pathIsInside` of src/server/download-path-policy.ts. */
  predicate PathIsInside(root: seq<Text>, candidate: seq<Text>) {
    var relative := Relative(root, candidate);
    relative == [] || (relative != UP && !StartsWith(relative, UP + [SLASH]) && !IsAbsolute(relative))
  }

  // ---------------------------------------------------------------- resolving

  lemma {:induction false} NormalizeIsPath(done: seq<Text>, parts: seq<Text>)
    requires IsPath(done) && forall i :: 0 <= i < |parts| ==> Free(parts[i], SLASH)
    ensures IsPath(Normalize(done, parts))
    decreases |parts|
  {
    if parts != [] {
      if parts[0] == [] || parts[0] == HERE {
        NormalizeIsPath(done, parts[1..]);
      } else if parts[0] == UP {
        NormalizeIsPath(Parent(done), parts[1..]);
      } else {
        NormalizeIsPath(done + [parts[0]], parts[1..]);
      }
    }
  }

  /** Whatever the string, its resolution is a path without `.`, `..` or empty components. */
  lemma ResolveIsPath(raw: Text)
    ensures IsPath(Resolve(raw))
  {
    JoinSplit(raw, SLASH);
    NormalizeIsPath([], Split(raw, SLASH));
  }

  lemma {:induction false} NormalizeNames(done: seq<Text>, p: seq<Text>)
    requires IsPath(p)
    ensures Normalize(done, p) == done + p
    decreases |p|
  {
    if p == [] {
      assert done + p == done;
    } else {
      assert IsName(p[0]);
      NormalizeNames(done + [p[0]], p[1..]);
      assert done + [p[0]] + p[1..] == done + p;
    }
  }

  /** Resolving the string of a path gives the path back. */
  lemma ResolveShow(p: Path)
    ensures Resolve(Show(p)) == p
  {
    if p == [] {
      SplitHead([], SLASH, []);
      assert [] + [SLASH] + [] == [SLASH];
      assert Normalize([], [[], []]) == Normalize([], [[], []][1..]) == Normalize([], [[], []][1..][1..]);
    } else {
      SplitHead([], SLASH, Join(p, SLASH));
      assert [] + [SLASH] + Join(p, SLASH) == Show(p);
      NamesAreFree(p);
      SplitJoin(p, SLASH);
      assert ([[]] + p)[1..] == p;
      NormalizeNames([], p);
      assert [] + p == p;
    }
  }

  lemma NamesAreFree(p: seq<Text>)
    requires IsPath(p)
    ensures forall i :: 0 <= i < |p| ==> Free(p[i], SLASH)
  {
    forall i | 0 <= i < |p| ensures Free(p[i], SLASH) {
      assert IsName(p[i]);
    }
  }

  // ---------------------------------------------------------------- relative and join

  lemma StepsAreFree(from: Path, to: Path)
    ensures forall i :: 0 <= i < |Steps(from, to)| ==> Free(Steps(from, to)[i], SLASH) && Steps(from, to)[i] != []
  {
    var steps, k := Steps(from, to), Common(from, to);
    forall i | 0 <= i < |steps| ensures Free(steps[i], SLASH) && steps[i] != [] {
      assert steps[i] == if i < |from| - k then UP else to[k + i - (|from| - k)];
      assert i >= |from| - k ==> IsName(to[k + i - (|from| - k)]);
    }
  }

  lemma {:induction false} NormalizeUps(done: seq<Text>, n: nat, rest: seq<Text>)
    requires n <= |done|
    ensures Normalize(done, Ups(n) + rest) == Normalize(done[..|done| - n], rest)
    decreases n
  {
    if n == 0 {
      assert Ups(0) + rest == rest && done[..|done|] == done;
    } else {
      assert (Ups(n) + rest)[1..] == Ups(n - 1) + rest;
      NormalizeUps(Parent(done), n - 1, rest);
      assert Parent(done)[..|Parent(done)| - (n - 1)] == done[..|done| - n];
    }
  }

  /** Joining a path with the relative path to another leads to that other, for any two paths. */
  lemma JoinRelative(from: Path, to: Path)
    ensures JoinPath(from, Relative(from, to)) == to
  {
    var k, steps := Common(from, to), Steps(from, to);
    assert to == to[..k] + to[k..];
    if steps == [] {
      assert |from| == k && to[k..] == [];
      assert from == from[..k];
    } else {
      StepsAreFree(from, to);
      SplitJoin(steps, SLASH);
      JoinNonempty(steps);
      NormalizeUps(from, |from| - k, to[k..]);
      PathSuffix(to, k);
      NormalizeNames(from[..k], to[k..]);
    }
  }

  lemma PathSuffix(p: Path, k: nat)
    requires k <= |p|
    ensures IsPath(p[k..]) && IsPath(p[..k])
  {
  }

  lemma JoinNonempty(parts: seq<Text>)
    requires parts != [] && parts[0] != []
    ensures Join(parts, SLASH) != [] && Join(parts, SLASH)[0] == parts[0][0]
  {
  }

  // ---------------------------------------------------------------- containment

  lemma CommonOfPrefix(root: seq<Text>, candidate: seq<Text>)
    ensures Common(root, candidate) == |root| <==> root <= candidate
  {
    var k := Common(root, candidate);
    if k == |root| { assert root == root[..k]; }
  }

  /** The textual test on the relative path holds exactly when the root's components are a prefix of the candidate's. */
  lemma InsideIffPrefix(root: Path, candidate: Path)
    ensures PathIsInside(root, candidate) <==> root <= candidate
  {
    var k, steps, relative := Common(root, candidate), Steps(root, candidate), Relative(root, candidate);
    CommonOfPrefix(root, candidate);
    if steps != [] {
      StepsAreFree(root, candidate);
      JoinNonempty(steps);
      if k < |root| {
        StartsUp(steps);
      } else {
        assert steps[0] == candidate[k] && IsName(candidate[k]);
        StartsDown(steps);
      }
    }
  }

  lemma StartsUp(steps: seq<Text>)
    requires steps != [] && steps[0] == UP
    ensures Join(steps, SLASH) == UP || StartsWith(Join(steps, SLASH), UP + [SLASH])
  {
    if |steps| > 1 {
      assert Join(steps, SLASH) == UP + [SLASH] + Join(steps[1..], SLASH);
    }
  }

  lemma StartsDown(steps: seq<Text>)
    requires steps != [] && IsName(steps[0])
    ensures var s := Join(steps, SLASH); s != UP && !StartsWith(s, UP + [SLASH]) && !IsAbsolute(s)
  {
    var s, c := Join(steps, SLASH), steps[0];
    assert c <= s && (|s| > |c| ==> s[|c|] == SLASH);
    if |s| == |c| { assert s == c; }
    if StartsWith(s, UP + [SLASH]) {
      UpSlash(s);
      assert false;
    }
  }

  lemma UpSlash(s: Text)
    requires StartsWith(s, UP + [SLASH])
    ensures |s| >= 3 && s[0] == UP[0] && s[1] == UP[1] && s[2] == SLASH
  {
    var t := UP + [SLASH];
    assert t[0] == UP[0] && t[1] == UP[1] && t[2] == SLASH;
  }
}
