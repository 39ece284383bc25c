/** src/server/download-path-policy.ts over a POSIX file system. */
module PathPolicy {
  import opened Options
  import opened Texts
  import opened PathAlgebra
  import opened Occurrences

  datatype Root = Root(configured: Path, canonical: Path)

  datatype Errno = NotFound | Denied

  datatype Failure = SettingsInvalid | OutsideRoots | NotDirectory | Unreachable(errno: Errno) | CannotCreate
    | NotWritable

  /** What the calls of one moment answer. */
  datatype FileSystem = FileSystem(
    lstat: Path -> Option<Errno>,             // `None`: it exists
    realpath: Path -> Result<Path, Errno>,
    isDirectory: Path -> Result<bool, Errno>)

  function AbsolutePath(raw: Text): (r: Result<Path, Failure>)
    ensures r.Err? ==> r.error == SettingsInvalid
  {
    if raw == [] || !IsAbsolute(raw) || NUL in raw then Err(SettingsInvalid)
    else
      ResolveIsPath(raw);
      Ok(Resolve(raw))
  }

  /** A request that can be read: an absolute path without a null unit. */
  predicate IsReadable(raw: Text) {
    raw != [] && raw[0] == '/' as int && 0 !in raw
  }

  lemma AbsoluteIff(raw: Text)
    ensures AbsolutePath(raw).Ok? <==> IsReadable(raw)
    ensures AbsolutePath(raw).Ok? ==> AbsolutePath(raw).value == Resolve(raw)
  {
  }

  // ---------------------------------------------------------------- allowed roots

  /** What `trim` removes. */
  predicate IsSpace(c: Unit) {
    || 9 <= c <= 13 || c == 32 || c == 0xa0 || c == 0x1680 || 0x2000 <= c <= 0x200a
    || c == 0x2028 || c == 0x2029 || c == 0x202f || c == 0x205f || c == 0x3000 || c == 0xfeff
  }

  function Trim(s: Text): Text {
    if s == [] then []
    else if IsSpace(s[0]) then Trim(s[1..])
    else if IsSpace(s[|s| - 1]) then Trim(s[..|s| - 1])
    else s
  }

  /** The entries that are not blank, trimmed. */
  function Entries(parts: seq<Text>): seq<Text> {
    if parts == [] then []
    else
      var front, last := Entries(parts[..|parts| - 1]), Trim(parts[|parts| - 1]);
      if last == [] then front else front + [last]
  }

  function AllAbsolute(entries: seq<Text>): (r: Result<seq<Path>, Failure>)
    ensures r.Ok? ==>
              |r.value| == |entries| && forall i :: 0 <= i < |entries| ==> AbsolutePath(entries[i]) == Ok(r.value[i])
    ensures r.Err? ==> r.error == SettingsInvalid
  {
    if entries == [] then Ok([])
    else match AllAbsolute(entries[..|entries| - 1]) case Err(e) => Err(e) case Ok(front) =>
      match AbsolutePath(entries[|entries| - 1]) case Err(e) => Err(e) case Ok(last) => Ok(front + [last])
  }

  lemma {:induction false} InvalidStaysInvalid(front: seq<Text>, all: seq<Text>)
    requires front <= all && AllAbsolute(front).Err?
    ensures AllAbsolute(all).Err?
    decreases |all|
  {
    if |front| == |all| {
      assert front == all;
    } else {
      InvalidStaysInvalid(front, all[..|all| - 1]);
    }
  }

  lemma EntriesSnoc(parts: seq<Text>, i: nat)
    requires i < |parts|
    ensures Entries(parts[..i + 1])
            == if Trim(parts[i]) == [] then Entries(parts[..i]) else Entries(parts[..i]) + [Trim(parts[i])]
  {
    assert parts[..i + 1][..i] == parts[..i];
  }

  lemma AbsoluteSnoc(front: seq<Text>, raw: Text)
    requires AllAbsolute(front).Ok?
    ensures AllAbsolute(front + [raw])
         == match AbsolutePath(raw) case Err(e) => Err(e) case Ok(root) => Ok(AllAbsolute(front).value + [root])
  {
    assert (front + [raw])[..|front|] == front;
  }

  lemma FirstsSnoc(paths: seq<Path>, root: Path)
    ensures Firsts(paths + [root]) == if root in paths then Firsts(paths) else Firsts(paths) + [root]
  {
    assert (paths + [root])[..|paths|] == paths;
  }

  /** The distinct roots of the setting, in order; one entry that is not an absolute path refuses all. */
  method ParseAllowedSaveDirs(value: Option<Text>, delimiter: Unit) returns (r: Result<seq<Path>, Failure>)
    ensures value.None? || Trim(value.value) == [] ==> r == Ok([])
    ensures value.Some? && Trim(value.value) != [] ==>
              var paths := AllAbsolute(Entries(Split(value.value, delimiter)));
              r == if paths.Err? then Err(SettingsInvalid) else Ok(Firsts(paths.value))
  {
    if value.None? || Trim(value.value) == [] { return Ok([]); }
    r := ParseParts(Split(value.value, delimiter));
  }

  method ParseParts(parts: seq<Text>) returns (r: Result<seq<Path>, Failure>)
    ensures var paths := AllAbsolute(Entries(parts));
            r == if paths.Err? then Err(SettingsInvalid) else Ok(Firsts(paths.value))
  {
    var seen: set<Path>, roots: seq<Path> := {}, [];
    ghost var paths: seq<Path> := [];
    for i := 0 to |parts|
      invariant AllAbsolute(Entries(parts[..i])) == Ok(paths) && roots == Firsts(paths)
      invariant forall p :: p in seen <==> p in paths
    {
      EntriesSnoc(parts, i);
      var raw := Trim(parts[i]);
      if raw != [] {
        AbsoluteSnoc(Entries(parts[..i]), raw);
        var root := AbsolutePath(raw);
        if root.Err? {
          EntriesOfPrefix(parts, i + 1);
          InvalidStaysInvalid(Entries(parts[..i + 1]), Entries(parts));
          return Err(root.error);
        }
        FirstsSnoc(paths, root.value);
        paths := paths + [root.value];
        if root.value !in seen {
          seen := seen + {root.value};
          roots := roots + [root.value];
        }
      }
    }
    assert parts[..|parts|] == parts;
    r := Ok(roots);
  }

  lemma {:induction false} EntriesOfPrefix(parts: seq<Text>, k: nat)
    requires k <= |parts|
    ensures Entries(parts[..k]) <= Entries(parts)
    decreases |parts|
  {
    if k == |parts| {
      assert parts[..k] == parts;
    } else {
      assert parts[..|parts| - 1][..k] == parts[..k];
      EntriesOfPrefix(parts[..|parts| - 1], k);
    }
  }

  // ---------------------------------------------------------------- resolving a request

  function Configured(roots: seq<Root>, candidate: Path): seq<Root> {
    Filter(roots, (root: Root) => PathIsInside(root.configured, candidate))
  }

  function CanonicallyAbove(candidate: Path): Root -> bool {
    (root: Root) => PathIsInside(root.canonical, candidate)
  }

  function Canonical(roots: seq<Root>, candidate: Path): seq<Root> {
    Filter(roots, CanonicallyAbove(candidate))
  }

  function CanonicalLength(root: Root): nat {
    |Show(root.canonical)|
  }

  function ConfiguredLength(root: Root): nat {
    |Show(root.configured)|
  }

  /** A path below a canonical root, seen through the root's configured name. */
  function ThroughAlias(alias: Root, candidate: Path): (r: Path) {
    JoinIsPath(alias.configured, Relative(alias.canonical, candidate));
    JoinPath(alias.configured, Relative(alias.canonical, candidate))
  }

  lemma JoinIsPath(p: Path, s: Text)
    ensures IsPath(JoinPath(p, s))
  {
    JoinSplit(s, SLASH);
    NormalizeIsPath(p, Split(s, SLASH));
  }

  datatype Resolved = Resolved(candidate: Path, matching: seq<Root>)

  function ResolveCandidate(roots: seq<Root>, requested: Text): Result<Resolved, Failure> {
    match AbsolutePath(requested)
    case Err(e) => Err(e)
    case Ok(candidate) =>
      if roots == [] || Configured(roots, candidate) != [] then Ok(Resolved(candidate, Configured(roots, candidate)))
      else if Canonical(roots, candidate) == [] then Err(OutsideRoots)
      else Matched(roots, ThroughAlias(FirstLargest(Canonical(roots, candidate), CanonicalLength), candidate))
  }

  function Matched(roots: seq<Root>, candidate: Path): Result<Resolved, Failure> {
    if Configured(roots, candidate) == [] then Err(OutsideRoots)
    else Ok(Resolved(candidate, Configured(roots, candidate)))
  }

  method Resolving(roots: seq<Root>, requested: Text) returns (r: Result<Resolved, Failure>)
    ensures r == ResolveCandidate(roots, requested)
  {
    var absolute := AbsolutePath(requested);
    if absolute.Err? { return Err(absolute.error); }
    var candidate := absolute.value;
    var matchingRoots := Configured(roots, candidate);
    if roots != [] && matchingRoots == [] {
      var below := Canonical(roots, candidate);
      if below != [] {
        var alias := FirstLargest(below, CanonicalLength);
        candidate := ThroughAlias(alias, candidate);
        matchingRoots := Configured(roots, candidate);
      }
    }
    if roots != [] && matchingRoots == [] { return Err(OutsideRoots); }
    r := Ok(Resolved(candidate, matchingRoots));
  }

  lemma ConfiguredIff(roots: seq<Root>, candidate: Path)
    ensures forall root :: root in Configured(roots, candidate) <==> root in roots && root.configured <= candidate
  {
    forall root: Root ensures root in Configured(roots, candidate) <==> root in roots && root.configured <= candidate {
      InsideIffPrefix(root.configured, candidate);
    }
  }

  lemma CanonicalIff(roots: seq<Root>, candidate: Path)
    ensures forall root :: root in Canonical(roots, candidate) <==> root in roots && root.canonical <= candidate
  {
    forall root: Root ensures root in Canonical(roots, candidate) <==> root in roots && root.canonical <= candidate {
      InsideIffPrefix(root.canonical, candidate);
    }
  }

  /** Seen through an alias, a path keeps what it has below the root. */
  lemma ThroughAliasIs(alias: Root, candidate: Path)
    requires alias.canonical <= candidate
    ensures ThroughAlias(alias, candidate) == alias.configured + candidate[|alias.canonical|..]
  {
    var tail := candidate[|alias.canonical|..];
    CommonOfPrefix(alias.canonical, candidate);
    PathSuffix(candidate, |alias.canonical|);
    assert Ups(0) + tail == tail;
    if tail == [] {
      assert alias.configured + tail == alias.configured;
    } else {
      NamesAreFree(tail);
      SplitJoin(tail, SLASH);
      assert IsName(tail[0]);
      JoinNonempty(tail);
      NormalizeNames(alias.configured, tail);
    }
  }

  lemma AliasResolves(roots: seq<Root>, candidate: Path)
    requires Canonical(roots, candidate) != []
    ensures Configured(roots, ThroughAlias(FirstLargest(Canonical(roots, candidate), CanonicalLength), candidate)) != []
  {
    var alias := FirstLargest(Canonical(roots, candidate), CanonicalLength);
    CanonicalIff(roots, candidate);
    ThroughAliasIs(alias, candidate);
    ConfiguredIff(roots, ThroughAlias(alias, candidate));
    assert alias in Configured(roots, ThroughAlias(alias, candidate));
  }

  lemma SomeConfigured(roots: seq<Root>, candidate: Path)
    ensures Configured(roots, candidate) != [] <==> exists root :: root in roots && root.configured <= candidate
    ensures Canonical(roots, candidate) != [] <==> exists root :: root in roots && root.canonical <= candidate
  {
    ConfiguredIff(roots, candidate);
    CanonicalIff(roots, candidate);
    if Configured(roots, candidate) != [] { assert Configured(roots, candidate)[0] in roots; }
    if Canonical(roots, candidate) != [] { assert Canonical(roots, candidate)[0] in roots; }
  }

  /** A request is resolved exactly when it lies under some configured or some canonical root. */
  lemma ResolvesIff(roots: seq<Root>, requested: Text)
    requires roots != []
    ensures ResolveCandidate(roots, requested).Ok?
       <==> IsReadable(requested)
            && ((exists root :: root in roots && root.configured <= Resolve(requested))
                || exists root :: root in roots && root.canonical <= Resolve(requested))
  {
    AbsoluteIff(requested);
    if AbsolutePath(requested).Ok? {
      var candidate := AbsolutePath(requested).value;
      SomeConfigured(roots, candidate);
      if Canonical(roots, candidate) != [] {
        AliasResolves(roots, candidate);
      }
    }
  }

  /** The request itself, or what it has below a canonical root moved to the root's configured name. */
  ghost predicate IsRequested(roots: seq<Root>, requested: Text, candidate: Path) {
    || candidate == Resolve(requested)
    || exists alias :: alias in roots && alias.canonical <= Resolve(requested)
                       && candidate == alias.configured + Resolve(requested)[|alias.canonical|..]
  }

  /** What a request is resolved to is requested, and the matching roots are all that contain it. */
  lemma ResolvedUnderRoots(roots: seq<Root>, requested: Text)
    ensures match ResolveCandidate(roots, requested)
            case Err(_) => true
            case Ok(resolved) =>
              && IsRequested(roots, requested, resolved.candidate)
              && (roots != [] ==> resolved.matching != [])
              && forall root :: root in resolved.matching <==> root in roots && root.configured <= resolved.candidate
  {
    if ResolveCandidate(roots, requested).Ok? {
      var candidate, resolved := AbsolutePath(requested).value, ResolveCandidate(roots, requested).value;
      ConfiguredIff(roots, resolved.candidate);
      if resolved.candidate != candidate {
        CanonicalIff(roots, candidate);
        var alias := FirstLargest(Canonical(roots, candidate), CanonicalLength);
        ThroughAliasIs(alias, candidate);
        assert alias in roots && alias.canonical <= Resolve(requested);
      }
    }
  }

  /** A request under a configured root, or with no roots at all, is taken as it is. */
  lemma TakenAsIs(roots: seq<Root>, requested: Text)
    requires IsReadable(requested)
    requires roots == [] || exists root :: root in roots && root.configured <= Resolve(requested)
    ensures ResolveCandidate(roots, requested).Ok?
    ensures ResolveCandidate(roots, requested).value.candidate == Resolve(requested)
  {
    AbsoluteIff(requested);
    SomeConfigured(roots, Resolve(requested));
  }

  lemma {:induction false} LongerShows(p: Path, n: nat)
    requires n < |p|
    ensures |Show(p[..n])| < |Show(p)|
    decreases |p|
  {
    var front := p[..|p| - 1];
    assert p == front + [p[|p| - 1]] && IsName(p[|p| - 1]) && IsPath(front);
    if n < |front| {
      LongerShows(front, n);
      assert front[..n] == p[..n];
    } else {
      assert p[..n] == front;
    }
    ShowLast(front, p[|p| - 1]);
  }

  lemma {:induction false} ShowLast(front: Path, name: Text)
    requires IsName(name)
    ensures IsPath(front + [name]) && |Show(front)| < |Show(front + [name])|
  {
    if |front| > 1 {
      assert (front + [name])[1..] == front[1..] + [name];
      ShowLast(front[1..], name);
    }
  }

  /**
   * Any other request is seen through an alias: of the roots whose canonical path contains it the deepest, and of
   * several of one depth the first in the list.
   */
  lemma AliasChosen(roots: seq<Root>, requested: Text) returns (i: nat)
    requires IsReadable(requested)
    requires forall root :: root in roots ==> !(root.configured <= Resolve(requested))
    requires exists root :: root in roots && root.canonical <= Resolve(requested)
    ensures i < |roots| && roots[i].canonical <= Resolve(requested)
    ensures forall j :: 0 <= j < |roots| && roots[j].canonical <= Resolve(requested) ==>
              |roots[j].canonical| <= |roots[i].canonical|
    ensures forall j :: 0 <= j < i && roots[j].canonical <= Resolve(requested) ==>
              |roots[j].canonical| < |roots[i].canonical|
    ensures ResolveCandidate(roots, requested).Ok?
    ensures ResolveCandidate(roots, requested).value.candidate
         == roots[i].configured + Resolve(requested)[|roots[i].canonical|..]
  {
    AbsoluteIff(requested);
    var candidate := AbsolutePath(requested).value;
    SomeConfigured(roots, candidate);
    AliasResolves(roots, candidate);
    i := DeepestAlias(roots, candidate);
    ThroughAliasIs(roots[i], candidate);
  }

  lemma AboveIff(candidate: Path, root: Root)
    ensures CanonicallyAbove(candidate)(root) <==> root.canonical <= candidate
  {
    InsideIffPrefix(root.canonical, candidate);
  }

  lemma DeepestAlias(roots: seq<Root>, candidate: Path) returns (i: nat)
    requires Canonical(roots, candidate) != []
    ensures i < |roots| && roots[i].canonical <= candidate
    ensures roots[i] == FirstLargest(Canonical(roots, candidate), CanonicalLength)
    ensures forall j :: 0 <= j < |roots| && roots[j].canonical <= candidate ==>
              |roots[j].canonical| <= |roots[i].canonical|
    ensures forall j :: 0 <= j < i && roots[j].canonical <= candidate ==> |roots[j].canonical| < |roots[i].canonical|
  {
    var above := CanonicallyAbove(candidate);
    i := LargestOfFilter(roots, above, CanonicalLength);
    AboveIff(candidate, roots[i]);
    forall j | 0 <= j < |roots| && roots[j].canonical <= candidate
      ensures |roots[j].canonical| <= |roots[i].canonical|
      ensures j < i ==> |roots[j].canonical| < |roots[i].canonical| {
      AboveIff(candidate, roots[j]);
      assert roots[j] in Filter(roots, above);
      DeeperIsLonger(roots[j].canonical, roots[i].canonical, candidate);
    }
  }

  lemma DeeperIsLonger(p: Path, q: Path, whole: Path)
    requires p <= whole && q <= whole
    ensures |Show(p)| < |Show(q)| <==> |p| < |q|
    ensures |Show(p)| <= |Show(q)| <==> |p| <= |q|
  {
    assert p == whole[..|p|] && q == whole[..|q|];
    if |p| < |q| {
      assert q[..|p|] == p;
      LongerShows(q, |p|);
    } else if |q| < |p| {
      assert p[..|q|] == q;
      LongerShows(p, |q|);
    }
  }

  // ---------------------------------------------------------------- authorising

  /** The longest configured root whose canonical path contains the canonical path; with no roots at all, none. */
  function CheckCanonical(canonical: Path, roots: seq<Root>): Result<Option<Root>, Failure> {
    var matching := Canonical(roots, canonical);
    if matching == [] then (if roots == [] then Ok(None) else Err(OutsideRoots))
    else Ok(Some(FirstLargest(matching, ConfiguredLength)))
  }

  datatype Authorized = Authorized(path: Path, canonicalPath: Path, rootPath: Path)

  function AuthorizeDirectory(roots: seq<Root>, fs: FileSystem, requested: Text): Result<Authorized, Failure> {
    match ResolveCandidate(roots, requested)
    case Err(e) => Err(e)
    case Ok(Resolved(candidate, matching)) =>
      match fs.realpath(candidate) case Err(e) => Err(Unreachable(e)) case Ok(canonical) =>
        match CheckCanonical(canonical, matching) case Err(e) => Err(e) case Ok(root) =>
          match fs.isDirectory(canonical) case Err(e) => Err(Unreachable(e)) case Ok(isDirectory) =>
            if !isDirectory then Err(NotDirectory)
            else Ok(Authorized(candidate, canonical, if root.Some? then root.value.configured else []))
  }

  /** The root that an authorised directory is attributed to: it contains both paths, and no longer one does. */
  ghost predicate IsRootOf(roots: seq<Root>, root: Root, d: Authorized) {
    && root in roots && d.rootPath == root.configured
    && root.configured <= d.path && root.canonical <= d.canonicalPath
    && forall other :: other in roots && other.configured <= d.path && other.canonical <= d.canonicalPath
         ==> ConfiguredLength(other) <= ConfiguredLength(root)
  }

  /** One single root contains both the logical and the real path of an authorised directory. */
  lemma AuthorizedUnderOneRoot(roots: seq<Root>, fs: FileSystem, requested: Text)
    ensures match AuthorizeDirectory(roots, fs, requested)
            case Err(_) => true
            case Ok(d) =>
              && IsRequested(roots, requested, d.path) && fs.realpath(d.path) == Ok(d.canonicalPath)
              && fs.isDirectory(d.canonicalPath) == Ok(true)
              && (roots != [] ==> exists root :: IsRootOf(roots, root, d))
  {
    ResolvedUnderRoots(roots, requested);
    if roots != [] && AuthorizeDirectory(roots, fs, requested).Ok? {
      var d, resolved := AuthorizeDirectory(roots, fs, requested).value, ResolveCandidate(roots, requested).value;
      var root := CheckedRoot(d.canonicalPath, resolved.matching);
      assert IsRootOf(roots, root, d);
    }
  }

  lemma CheckedRoot(canonical: Path, matching: seq<Root>) returns (root: Root)
    requires matching != [] && CheckCanonical(canonical, matching).Ok?
    ensures CheckCanonical(canonical, matching) == Ok(Some(root))
    ensures root in matching && root.canonical <= canonical
    ensures forall other :: other in matching && other.canonical <= canonical ==>
              ConfiguredLength(other) <= ConfiguredLength(root)
  {
    CanonicalIff(matching, canonical);
    root := CheckCanonical(canonical, matching).value.value;
    assert root in Canonical(matching, canonical);
  }

  /** The real path has left every root that contains the logical one. */
  ghost predicate Escapes(roots: seq<Root>, candidate: Path, canonical: Path) {
    roots != [] && forall root :: root in roots && root.configured <= candidate ==> !(root.canonical <= canonical)
  }

  /** A link that leads out of every root that contains its name is refused. */
  lemma EscapesAreRefused(roots: seq<Root>, fs: FileSystem, requested: Text)
    ensures match ResolveCandidate(roots, requested)
            case Err(e) => AuthorizeDirectory(roots, fs, requested) == Err(e)
            case Ok(resolved) =>
              match fs.realpath(resolved.candidate)
              case Err(e) => AuthorizeDirectory(roots, fs, requested) == Err(Unreachable(e))
              case Ok(canonical) =>
                (AuthorizeDirectory(roots, fs, requested) == Err(OutsideRoots)
                 <==> Escapes(roots, resolved.candidate, canonical))
  {
    ResolvedUnderRoots(roots, requested);
    if ResolveCandidate(roots, requested).Ok? {
      var resolved := ResolveCandidate(roots, requested).value;
      if fs.realpath(resolved.candidate).Ok? {
        RefusedIff(roots, resolved.candidate, fs.realpath(resolved.candidate).value, resolved.matching);
      }
    }
  }

  lemma RefusedIff(roots: seq<Root>, candidate: Path, canonical: Path, matching: seq<Root>)
    requires roots != [] ==> matching != []
    requires forall root :: root in matching <==> root in roots && root.configured <= candidate
    ensures CheckCanonical(canonical, matching).Err? <==> Escapes(roots, candidate, canonical)
    ensures CheckCanonical(canonical, matching).Err? ==> CheckCanonical(canonical, matching) == Err(OutsideRoots)
  {
    CanonicalIff(matching, canonical);
    if Canonical(matching, canonical) != [] {
      Member(Canonical(matching, canonical));
    }
    if matching != [] {
      Member(matching);
    }
  }

  /** A request that has not escaped is authorised exactly if its real path is a directory. */
  lemma AuthorizedIff(roots: seq<Root>, fs: FileSystem, requested: Text, candidate: Path, canonical: Path)
    requires ResolveCandidate(roots, requested).Ok? && ResolveCandidate(roots, requested).value.candidate == candidate
    requires fs.realpath(candidate) == Ok(canonical) && !Escapes(roots, candidate, canonical)
    ensures var r := AuthorizeDirectory(roots, fs, requested);
            match fs.isDirectory(canonical)
            case Err(e) => r == Err(Unreachable(e))
            case Ok(false) => r == Err(NotDirectory)
            case Ok(true) =>
              r.Ok? && r.value.path == candidate && r.value.canonicalPath == canonical
              && (roots == [] ==> r.value.rootPath == [])
  {
    ResolvedUnderRoots(roots, requested);
    RefusedIff(roots, candidate, canonical, ResolveCandidate(roots, requested).value.matching);
    if roots == [] { NoRoots(requested); }
  }

  lemma NoRoots(requested: Text)
    ensures ResolveCandidate([], requested).Ok? ==> ResolveCandidate([], requested).value.matching == []
  {
  }

  lemma Member<T(!new)>(xs: seq<T>)
    requires |xs| > 0
    ensures exists x :: x in xs
  {
    assert xs[0] in xs;
  }

  // ---------------------------------------------------------------- preparing

  /** Everything between two prefixes of a path is missing. */
  ghost predicate MissingBelow(fs: FileSystem, candidate: Path, k: nat)
    requires k <= |candidate|
  {
    forall j :: k < j <= |candidate| ==> IsPath(candidate[..j]) && fs.lstat(candidate[..j]) == Some(NotFound)
  }

  /** The longest existing prefix; any other error than a missing entry is passed on. */
  method DeepestExistingAncestor(fs: FileSystem, candidate: Path) returns (r: Result<Path, Errno>)
    ensures r.Ok? ==> r.value <= candidate && fs.lstat(r.value) == None && MissingBelow(fs, candidate, |r.value|)
    ensures r.Err? ==> exists k :: 0 <= k <= |candidate| && IsPath(candidate[..k]) && MissingBelow(fs, candidate, k)
                                   && fs.lstat(candidate[..k]) == Some(r.error) && (r.error == NotFound ==> k == 0)
    ensures r == Deepest(fs, candidate)
  {
    var current := candidate;
    assert candidate[..|candidate|] == candidate;
    while true
      invariant current <= candidate && MissingBelow(fs, candidate, |current|)
      invariant Deepest(fs, current) == Deepest(fs, candidate)
      decreases |current|
    {
      assert candidate[..|current|] == current;
      var found := fs.lstat(current);
      if found == None { return Ok(current); }
      if found.value != NotFound { return Err(found.value); }
      if current == [] { return Err(NotFound); }
      PathSuffix(current, |current| - 1);
      current := Parent(current);
    }
  }

  function Deepest(fs: FileSystem, candidate: Path): Result<Path, Errno>
    decreases |candidate|
  {
    match fs.lstat(candidate)
    case None => Ok(candidate)
    case Some(e) =>
      if e != NotFound || candidate == [] then Err(e)
      else
        PathSuffix(candidate, |candidate| - 1);
        Deepest(fs, Parent(candidate))
  }

  /** `created` tells whether `ensureDirectory` was called; `after` is the file system it leaves behind. */
  datatype Prepared = Prepared(result: Result<Path, Failure>, created: bool)

  datatype Effects = Effects(ensured: bool, after: FileSystem, writable: bool)

  function EnsureAndCheck(candidate: Path, matching: seq<Root>, effects: Effects): Prepared {
    if !effects.ensured then Prepared(Err(CannotCreate), true)
    else match effects.after.realpath(candidate)
      case Err(e) => Prepared(Err(Unreachable(e)), true)
      case Ok(canonical) =>
        match CheckCanonical(canonical, matching)
        case Err(e) => Prepared(Err(e), true)
        case Ok(_) => Prepared(if effects.writable then Ok(canonical) else Err(NotWritable), true)
  }

  /** A missing or empty request means the default directory. */
  function RawRequest(defaultSaveDir: Text, requested: Option<Text>): Text {
    if requested.None? || requested.value == [] then defaultSaveDir else requested.value
  }

  function PrepareSaveDir(roots: seq<Root>, fs: FileSystem, effects: Effects, raw: Text): Prepared {
    match ResolveCandidate(roots, raw)
    case Err(e) => Prepared(Err(e), false)
    case Ok(Resolved(candidate, matching)) =>
      if matching == [] then EnsureAndCheck(candidate, matching, effects)
      else match Deepest(fs, candidate)
        case Err(e) => Prepared(Err(Unreachable(e)), false)
        case Ok(ancestor) =>
          match fs.realpath(ancestor) case Err(e) => Prepared(Err(Unreachable(e)), false) case Ok(canonical) =>
            match CheckCanonical(canonical, matching) case Err(e) => Prepared(Err(e), false)
            case Ok(_) => EnsureAndCheck(candidate, matching, effects)
  }

  function Prepare(roots: seq<Root>, defaultSaveDir: Text, fs: FileSystem, effects: Effects,
                   requested: Option<Text>): Prepared {
    PrepareSaveDir(roots, fs, effects, RawRequest(defaultSaveDir, requested))
  }

  /** Without a request, or with an empty one, the default directory is prepared; otherwise the requested one. */
  lemma DefaultIsPrepared(roots: seq<Root>, defaultSaveDir: Text, fs: FileSystem, effects: Effects, requested: Text)
    ensures Prepare(roots, defaultSaveDir, fs, effects, None) == PrepareSaveDir(roots, fs, effects, defaultSaveDir)
    ensures Prepare(roots, defaultSaveDir, fs, effects, Some(requested))
         == PrepareSaveDir(roots, fs, effects, if |requested| == 0 then defaultSaveDir else requested)
  {
  }

  /** Some root contains the candidate by name and the canonical path for real. */
  ghost predicate Covered(roots: seq<Root>, candidate: Path, canonical: Path) {
    exists root :: root in roots && root.configured <= candidate && root.canonical <= canonical
  }

  /** Nothing is created unless the deepest existing ancestor really lies in a root that contains the candidate. */
  lemma CreatedOnlyInside(roots: seq<Root>, fs: FileSystem, effects: Effects, raw: Text)
    ensures roots != [] && PrepareSaveDir(roots, fs, effects, raw).created ==>
              && ResolveCandidate(roots, raw).Ok?
              && var candidate := ResolveCandidate(roots, raw).value.candidate;
              && Deepest(fs, candidate).Ok? && Deepest(fs, candidate).value <= candidate
              && fs.realpath(Deepest(fs, candidate).value).Ok?
              && Covered(roots, candidate, fs.realpath(Deepest(fs, candidate).value).value)
  {
    ResolvedUnderRoots(roots, raw);
    if roots != [] && PrepareSaveDir(roots, fs, effects, raw).created {
      var resolved := ResolveCandidate(roots, raw).value;
      DeepestIsPrefix(fs, resolved.candidate);
      var root := CheckedRoot(fs.realpath(Deepest(fs, resolved.candidate).value).value, resolved.matching);
    }
  }

  lemma Ensured(candidate: Path, matching: seq<Root>, effects: Effects)
    ensures match EnsureAndCheck(candidate, matching, effects).result
            case Err(_) => true
            case Ok(canonical) =>
              effects.after.realpath(candidate) == Ok(canonical) && CheckCanonical(canonical, matching).Ok?
  {
  }

  lemma PreparedByEnsuring(roots: seq<Root>, fs: FileSystem, effects: Effects, raw: Text)
    requires PrepareSaveDir(roots, fs, effects, raw).result.Ok?
    ensures ResolveCandidate(roots, raw).Ok?
    ensures var resolved := ResolveCandidate(roots, raw).value;
            PrepareSaveDir(roots, fs, effects, raw) == EnsureAndCheck(resolved.candidate, resolved.matching, effects)
  {
  }

  /** And what is returned lies, after creation, really inside such a root. */
  lemma PreparedInside(roots: seq<Root>, fs: FileSystem, effects: Effects, raw: Text)
    ensures match PrepareSaveDir(roots, fs, effects, raw).result
            case Err(_) => true
            case Ok(canonical) =>
              && ResolveCandidate(roots, raw).Ok?
              && var candidate := ResolveCandidate(roots, raw).value.candidate;
              && IsRequested(roots, raw, candidate) && effects.after.realpath(candidate) == Ok(canonical)
              && (roots != [] ==> Covered(roots, candidate, canonical))
  {
    ResolvedUnderRoots(roots, raw);
    if PrepareSaveDir(roots, fs, effects, raw).result.Ok? {
      PreparedByEnsuring(roots, fs, effects, raw);
      var resolved := ResolveCandidate(roots, raw).value;
      Ensured(resolved.candidate, resolved.matching, effects);
      if roots != [] {
        var root := CheckedRoot(effects.after.realpath(resolved.candidate).value, resolved.matching);
      }
    }
  }

  lemma {:induction false} DeepestIsPrefix(fs: FileSystem, candidate: Path)
    requires Deepest(fs, candidate).Ok?
    ensures Deepest(fs, candidate).value <= candidate && fs.lstat(Deepest(fs, candidate).value) == None
    decreases |candidate|
  {
    if fs.lstat(candidate).Some? {
      PathSuffix(candidate, |candidate| - 1);
      DeepestIsPrefix(fs, Parent(candidate));
    }
  }

  /** The file system lets the directory be created: what exists of its path really lies in a root that contains it. */
  ghost predicate MayCreate(roots: seq<Root>, fs: FileSystem, candidate: Path) {
    roots == []
    || (Deepest(fs, candidate).Ok? && fs.realpath(Deepest(fs, candidate).value).Ok?
        && Covered(roots, candidate, fs.realpath(Deepest(fs, candidate).value).value))
  }

  lemma CoveredIff(roots: seq<Root>, candidate: Path, canonical: Path, matching: seq<Root>)
    requires matching != []
    requires forall root :: root in matching <==> root in roots && root.configured <= candidate
    ensures CheckCanonical(canonical, matching).Ok? <==> Covered(roots, candidate, canonical)
  {
    Member(matching);
    RefusedIff(roots, candidate, canonical, matching);
  }

  /**
   * Preparing succeeds exactly if the request can be resolved, may be created, is created, still really lies in such a
   * root afterwards, and can be written to.
   */
  lemma PreparesIff(roots: seq<Root>, fs: FileSystem, effects: Effects, raw: Text)
    ensures var resolved, p := ResolveCandidate(roots, raw), PrepareSaveDir(roots, fs, effects, raw);
            && (p.created <==> resolved.Ok? && MayCreate(roots, fs, resolved.value.candidate))
            && (p.result.Ok? <==> p.created && effects.ensured && effects.after.realpath(resolved.value.candidate).Ok?
                                  && (roots == [] || Covered(roots, resolved.value.candidate,
                                                             effects.after.realpath(resolved.value.candidate).value))
                                  && effects.writable)
  {
    ResolvedUnderRoots(roots, raw);
    if ResolveCandidate(roots, raw).Ok? {
      var resolved := ResolveCandidate(roots, raw).value;
      if roots == [] {
        NoRoots(raw);
        CanonicalIff([], []);
      } else {
        forall canonical ensures CheckCanonical(canonical, resolved.matching).Ok?
                            <==> Covered(roots, resolved.candidate, canonical) {
          CoveredIff(roots, resolved.candidate, canonical, resolved.matching);
        }
      }
    }
  }
}
