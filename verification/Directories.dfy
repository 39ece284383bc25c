/** src/server/server-directory-service.ts: breadcrumbs, saved locations and the scan of a directory. */
module Directories {
  import opened Options
  import opened Texts
  import opened PathAlgebra
  import opened Occurrences

  // ---------------------------------------------------------------- navigation

  datatype Crumb = Crumb(name: Text, path: Path)

  /** `path.basename(p) || p`: the file system root is named by its path. */
  function NameOf(p: Path): Text {
    if p == [] then Show(p) else p[|p| - 1]
  }

  /** The first `n` crumbs below the root's: each is the prefix of the path that ends in its name. */
  function Crumbs(root: Path, path: Path, n: nat): (r: seq<Crumb>)
    requires root <= path && |root| + n <= |path|
    ensures |r| == n + 1
  {
    PrefixIsPath(path, |root| + n);
    if n == 0 then [Crumb(NameOf(root), root)]
    else Crumbs(root, path, n - 1) + [Crumb(path[|root| + n - 1], path[..|root| + n])]
  }

  lemma PrefixIsPath(path: Path, n: nat)
    requires n <= |path|
    ensures IsPath(path[..n])
  {
  }

  lemma NextCrumb(path: Path, n: nat, current: Path, name: Text)
    requires n < |path| && current == path[..n] && name == path[n]
    ensures JoinPath(current, name) == path[..n + 1] && IsPath(path[..n + 1])
  {
    assert IsName(path[n]);
    JoinName(current, name);
    assert path[..n] + [path[n]] == path[..n + 1];
  }

  lemma CrumbsGrow(root: Path, path: Path, n: nat, crumb: Crumb)
    requires root <= path && |root| + n < |path| && crumb.name == path[|root| + n]
    requires crumb.path == path[..|root| + n + 1]
    ensures Crumbs(root, path, n + 1) == Crumbs(root, path, n) + [crumb]
  {
  }

  /** The loop over the components below the root. */
  method Breadcrumbs(root: Path, names: seq<Text>, ghost path: Path) returns (breadcrumbs: seq<Crumb>)
    requires root <= path && names == path[|root|..]
    ensures breadcrumbs == Crumbs(root, path, |names|)
  {
    breadcrumbs := [Crumb(NameOf(root), root)];
    var current := root;
    for i := 0 to |names|
      invariant current == path[..|root| + i] && breadcrumbs == Crumbs(root, path, i)
    {
      NextCrumb(path, |root| + i, current, names[i]);
      current := JoinPath(current, names[i]);
      CrumbsGrow(root, path, i, Crumb(names[i], current));
      breadcrumbs := breadcrumbs + [Crumb(names[i], current)];
    }
  }

  /** Node's path functions give the crumbs, and the parent by taking the last component off. */
  method Navigation(root: Path, path: Path) returns (breadcrumbs: seq<Crumb>, parent: Option<Path>)
    requires root <= path
    ensures breadcrumbs == Crumbs(root, path, |path| - |root|)
    ensures parent == if path == root then None else Some(Parent(path))
  {
    var suffix := Relative(root, path);
    RelativeNames(root, path);
    breadcrumbs := Breadcrumbs(root, if suffix == [] then [] else Split(suffix, SLASH), path);
    PrefixIsPath(path, |Parent(path)|);
    parent := if suffix == [] then None else Some(Parent(path));
  }

  /** The crumbs are a chain of joins from the root to the path, and the parent is the last crumb but one. */
  lemma {:induction false} CrumbsChain(root: Path, path: Path, n: nat)
    requires root <= path && |root| + n <= |path|
    ensures var crumbs := Crumbs(root, path, n);
            && crumbs[0].path == root && crumbs[n].path == path[..|root| + n]
            && forall i :: 0 < i <= n ==> Joined(crumbs[i - 1], crumbs[i])
    ensures n > 0 ==> Crumbs(root, path, n)[n - 1].path == Parent(path[..|root| + n])
  {
    if n > 0 {
      CrumbsChain(root, path, n - 1);
      var crumbs, name := Crumbs(root, path, n), path[|root| + n - 1];
      assert IsName(name);
      JoinName(path[..|root| + n - 1], name);
      assert path[..|root| + n - 1] + [name] == path[..|root| + n];
      assert path[..|root| + n][..|root| + n - 1] == path[..|root| + n - 1];
      assert Joined(crumbs[n - 1], crumbs[n]);
      assert forall i :: 0 <= i < n ==> crumbs[i] == Crumbs(root, path, n - 1)[i];
    }
  }

  predicate Joined(from: Crumb, to: Crumb) {
    IsName(to.name) && to.path == JoinPath(from.path, to.name)
  }

  lemma RelativeNames(root: Path, path: Path)
    requires root <= path
    ensures var suffix := Relative(root, path);
            if suffix == [] then path == root else Split(suffix, SLASH) == path[|root|..] && path != root
  {
    var tail := path[|root|..];
    CommonOfPrefix(root, path);
    assert Ups(0) + tail == tail;
    PathSuffix(path, |root|);
    if tail == [] {
      assert path == root + tail;
    } else {
      NamesAreFree(tail);
      SplitJoin(tail, SLASH);
      assert IsName(tail[0]);
      JoinNonempty(tail);
    }
  }

  lemma JoinName(p: Path, name: Text)
    requires IsName(name)
    ensures JoinPath(p, name) == p + [name] && IsPath(p + [name])
  {
    SplitFree(name, SLASH);
    assert Normalize(p + [name], [name][1..]) == p + [name];
  }

  // ---------------------------------------------------------------- saved locations

  /** Where an accessible directory really is, and its logical path. */
  datatype Place = Place(canonical: Path, path: Path)

  /** With a fixed file system: the place of a candidate, if it can be opened. */
  type Opener = Text -> Option<Place>

  datatype Location = Location(name: Text, path: Path, sourcePaths: seq<Text>)

  const PATH_LIMIT: nat := 4096

  /** Candidates that are empty or too long are not even tried. */
  function Open(open: Opener, candidate: Text): Option<Place> {
    if candidate == [] || |candidate| > PATH_LIMIT then None else open(candidate)
  }

  /** The canonical directories of the candidates that can be opened, in order. */
  function Canonicals(open: Opener, candidates: seq<Text>): seq<Path> {
    if candidates == [] then []
    else
      var front, last := Canonicals(open, candidates[..|candidates| - 1]), Open(open, candidates[|candidates| - 1]);
      if last.None? then front else front + [last.value.canonical]
  }

  /** The candidates that lead to one canonical directory, in order. */
  function Sources(open: Opener, candidates: seq<Text>, canonical: Path): seq<Text> {
    if candidates == [] then []
    else
      var front, last := Sources(open, candidates[..|candidates| - 1], canonical), candidates[|candidates| - 1];
      if Open(open, last).Some? && Open(open, last).value.canonical == canonical then front + [last] else front
  }

  /** The logical path of a canonical directory: that of the first candidate that led to it. */
  function Logical(open: Opener, candidates: seq<Text>, canonical: Path): (r: Option<Path>)
    ensures r.Some? <==> canonical in Canonicals(open, candidates)
  {
    if candidates == [] then None
    else
      var front, last := candidates[..|candidates| - 1], Open(open, candidates[|candidates| - 1]);
      var earlier := Logical(open, front, canonical);
      if earlier.Some? then earlier
      else if last.Some? && last.value.canonical == canonical then Some(last.value.path) else None
  }

  /** The alias map after some candidates have been tried. */
  ghost predicate Aliases(open: Opener, tried: seq<Text>, aliases: map<Path, Path>) {
    forall c :: match Logical(open, tried, c) case None => c !in aliases case Some(p) => c in aliases && aliases[c] == p
  }

  lemma Tried(open: Opener, tried: seq<Text>, candidate: Text, c: Path)
    ensures var place := Open(open, candidate);
            && Canonicals(open, tried + [candidate]) == Canonicals(open, tried)
              + (if place.None? then [] else [place.value.canonical])
            && Sources(open, tried + [candidate], c)
               == Sources(open, tried, c) + (if place.Some? && place.value.canonical == c then [candidate] else [])
            && Logical(open, tried + [candidate], c)
               == (if Logical(open, tried, c).Some? then Logical(open, tried, c)
                   else if place.Some? && place.value.canonical == c then Some(place.value.path) else None)
  {
    assert (tried + [candidate])[..|tried|] == tried;
  }

  /** `authorize`: remembers the first logical path of each canonical directory. */
  method Authorize(open: Opener, ghost tried: seq<Text>, aliases: map<Path, Path>, candidate: Text)
    returns (place: Option<Place>, next: map<Path, Path>)
    requires Aliases(open, tried, aliases)
    ensures Aliases(open, tried + [candidate], next)
    ensures match Open(open, candidate)
            case None => place.None?
            case Some(p) => place.Some? && place.value.canonical == p.canonical
                            && Logical(open, tried + [candidate], p.canonical) == Some(place.value.path)
  {
    forall c { Tried(open, tried, candidate, c); }
    var found := Open(open, candidate);
    if found.None? { return None, aliases; }
    var canonical := found.value.canonical;
    var logical := if canonical in aliases then aliases[canonical] else found.value.path;
    place := Some(Place(canonical, logical));
    next := aliases[canonical := logical];
  }

  /** The common places that can be opened, by their number, each with its logical path. */
  function CommonOf(open: Opener, candidates: seq<Text>): seq<(nat, Path)> {
    if candidates == [] then []
    else
      var front, last := CommonOf(open, candidates[..|candidates| - 1]), Open(open, candidates[|candidates| - 1]);
      if last.None? then front else front + [(|candidates| - 1, Logical(open, candidates, last.value.canonical).value)]
  }

  method Common(open: Opener, candidates: seq<Text>) returns (places: seq<(nat, Path)>, aliases: map<Path, Path>)
    ensures Aliases(open, candidates, aliases) && places == CommonOf(open, candidates)
  {
    places, aliases := [], map[];
    for k := 0 to |candidates|
      invariant Aliases(open, candidates[..k], aliases) && places == CommonOf(open, candidates[..k])
    {
      var upTo := candidates[..k + 1];
      assert upTo == candidates[..k] + [candidates[k]] && upTo[..k] == candidates[..k];
      var place;
      place, aliases := Authorize(open, candidates[..k], aliases, candidates[k]);
      if place.Some? { places := places + [(k, place.value.path)]; }
    }
    assert candidates[..|candidates|] == candidates;
  }

  /** Once a canonical directory has a logical path it keeps it. */
  lemma {:induction false} LogicalStays(open: Opener, tried: seq<Text>, more: seq<Text>, c: Path)
    requires Logical(open, tried, c).Some?
    ensures Logical(open, tried + more, c) == Logical(open, tried, c)
    decreases |more|
  {
    if more == [] {
      assert tried + more == tried;
    } else {
      var front, last := more[..|more| - 1], more[|more| - 1];
      assert tried + more == tried + front + [last];
      LogicalStays(open, tried, front, c);
      Tried(open, tried + front, last, c);
    }
  }

  /** The candidate is tried, and opening it leads to this directory. */
  predicate LeadsTo(open: Opener, candidate: Text, canonical: Path) {
    0 < |candidate| <= 4096 && open(candidate).Some? && open(candidate).value.canonical == canonical
  }

  /** The first candidate that leads to a directory. */
  ghost predicate FirstTo(open: Opener, candidates: seq<Text>, canonical: Path, k: int) {
    0 <= k < |candidates| && LeadsTo(open, candidates[k], canonical)
    && forall j :: 0 <= j < k ==> !LeadsTo(open, candidates[j], canonical)
  }

  lemma {:induction false} FirstGivesLogical(open: Opener, candidates: seq<Text>, canonical: Path, k: int)
    requires FirstTo(open, candidates, canonical, k)
    ensures Logical(open, candidates, canonical) == Some(open(candidates[k]).value.path)
    decreases |candidates|
  {
    var front := candidates[..|candidates| - 1];
    if k < |front| {
      FirstGivesLogical(open, front, canonical, k);
    } else {
      NoneLeads(open, front, canonical);
    }
  }

  lemma {:induction false} NoneLeads(open: Opener, candidates: seq<Text>, canonical: Path)
    requires forall k :: 0 <= k < |candidates| ==> !LeadsTo(open, candidates[k], canonical)
    ensures Logical(open, candidates, canonical).None?
  {
    if candidates != [] {
      NoneLeads(open, candidates[..|candidates| - 1], canonical);
    }
  }

  lemma {:induction false} FirstExists(open: Opener, candidates: seq<Text>, canonical: Path, n: int) returns (k: int)
    requires 0 <= n < |candidates| && LeadsTo(open, candidates[n], canonical)
    ensures FirstTo(open, candidates, canonical, k)
    decreases n
  {
    if j :| 0 <= j < n && LeadsTo(open, candidates[j], canonical) {
      k := FirstExists(open, candidates, canonical, j);
    } else {
      k := n;
    }
  }

  /** The logical path of a directory is the one that opening the first candidate leading to it gave. */
  lemma LogicalIsFirst(open: Opener, candidates: seq<Text>, canonical: Path, p: Path)
    ensures Logical(open, candidates, canonical) == Some(p)
       <==> exists k :: FirstTo(open, candidates, canonical, k) && open(candidates[k]).value.path == p
  {
    if n :| 0 <= n < |candidates| && LeadsTo(open, candidates[n], canonical) {
      var first := FirstExists(open, candidates, canonical, n);
      FirstGivesLogical(open, candidates, canonical, first);
      forall k | FirstTo(open, candidates, canonical, k) ensures k == first {
      }
    } else {
      NoneLeads(open, candidates, canonical);
    }
  }

  /** The common places are those that can be opened, in order, under the logical path every section uses. */
  lemma {:induction false} CommonIsLogical(open: Opener, candidates: seq<Text>, more: seq<Text>, k: nat, p: Path)
    ensures (k, p) in CommonOf(open, candidates)
       <==> k < |candidates| && Open(open, candidates[k]).Some?
            && Logical(open, candidates + more, Open(open, candidates[k]).value.canonical) == Some(p)
    decreases |candidates|
  {
    if candidates != [] {
      var front, last := candidates[..|candidates| - 1], candidates[|candidates| - 1];
      assert candidates + more == front + ([last] + more);
      CommonIsLogical(open, front, [last] + more, k, p);
      if k == |candidates| - 1 && Open(open, last).Some? {
        LogicalStays(open, candidates, more, Open(open, last).value.canonical);
      }
    }
  }

  // ---------------------------------------------------------------- one section

  /** The group of a canonical directory. */
  function Group(open: Opener, before: seq<Text>, saved: seq<Text>, canonical: Path): Location
    requires canonical in Canonicals(open, saved)
  {
    TriedTogether(open, before, saved, canonical);
    var path := Logical(open, before + saved, canonical).value;
    Location(NameOf(path), path, Firsts(Sources(open, saved, canonical)))
  }

  lemma {:induction false} TriedTogether(open: Opener, before: seq<Text>, saved: seq<Text>, canonical: Path)
    requires canonical in Canonicals(open, saved)
    ensures Logical(open, before + saved, canonical).Some?
    decreases |saved|
  {
    var front, last := saved[..|saved| - 1], saved[|saved| - 1];
    assert before + saved == before + front + [last];
    Tried(open, before + front, last, canonical);
    if canonical in Canonicals(open, front) {
      TriedTogether(open, before, front, canonical);
    }
  }

  /** What `locations` returns for a section: each canonical directory once, in the order of first appearance. */
  function Section(open: Opener, before: seq<Text>, saved: seq<Text>): (r: seq<Location>)
    ensures |r| == |Firsts(Canonicals(open, saved))|
  {
    var directories := Firsts(Canonicals(open, saved));
    seq(|directories|, i requires 0 <= i < |directories| => Group(open, before, saved, directories[i]))
  }

  /** What one more saved path does to the group of a directory that already has one. */
  lemma GroupGrows(open: Opener, before: seq<Text>, saved: seq<Text>, candidate: Text, c: Path)
    requires c in Canonicals(open, saved)
    ensures c in Canonicals(open, saved + [candidate])
    ensures var place, group := Open(open, candidate), Group(open, before, saved, c);
            Group(open, before, saved + [candidate], c)
            == if place.Some? && place.value.canonical == c && candidate !in group.sourcePaths
               then group.(sourcePaths := group.sourcePaths + [candidate]) else group
  {
    Tried(open, saved, candidate, c);
    assert before + (saved + [candidate]) == before + saved + [candidate];
    TriedTogether(open, before, saved, c);
    Tried(open, before + saved, candidate, c);
    var sources := Sources(open, saved, c);
    assert (sources + [candidate])[..|sources|] == sources;
  }

  lemma NewGroup(open: Opener, before: seq<Text>, saved: seq<Text>, candidate: Text, c: Path)
    requires Open(open, candidate).Some? && Open(open, candidate).value.canonical == c && c !in Canonicals(open, saved)
    ensures c in Canonicals(open, saved + [candidate])
    ensures Group(open, before, saved + [candidate], c).sourcePaths == [candidate]
  {
    Tried(open, saved, candidate, c);
    NoSources(open, saved, c);
    assert [candidate][..0] == [];
    assert Firsts([candidate]) == [candidate];
  }

  lemma {:induction false} NoSources(open: Opener, saved: seq<Text>, c: Path)
    requires c !in Canonicals(open, saved)
    ensures Sources(open, saved, c) == []
  {
    if saved != [] {
      NoSources(open, saved[..|saved| - 1], c);
    }
  }

  lemma DirectoriesGrow(open: Opener, saved: seq<Text>, candidate: Text)
    ensures var directories, place := Firsts(Canonicals(open, saved)), Open(open, candidate);
            Firsts(Canonicals(open, saved + [candidate]))
            == if place.None? || place.value.canonical in directories
               then directories else directories + [place.value.canonical]
  {
    var canonicals := Canonicals(open, saved);
    Tried(open, saved, candidate, []);
    if Open(open, candidate).Some? {
      assert (canonicals + [Open(open, candidate).value.canonical])[..|canonicals|] == canonicals;
    }
  }

  /** One more saved path and one location of the section. */
  lemma LocationGrows(open: Opener, before: seq<Text>, saved: seq<Text>, candidate: Text, i: nat)
    requires i < |Section(open, before, saved)|
    ensures i < |Section(open, before, saved + [candidate])|
    ensures var place, location := Open(open, candidate), Section(open, before, saved)[i];
            Section(open, before, saved + [candidate])[i]
            == if place.Some? && place.value.canonical == Firsts(Canonicals(open, saved))[i]
              && candidate !in location.sourcePaths
               then location.(sourcePaths := location.sourcePaths + [candidate]) else location
  {
    DirectoriesGrow(open, saved, candidate);
    GroupGrows(open, before, saved, candidate, Firsts(Canonicals(open, saved))[i]);
  }

  lemma SectionKeeps(open: Opener, before: seq<Text>, saved: seq<Text>, candidate: Text)
    requires Open(open, candidate).None?
    ensures Section(open, before, saved + [candidate]) == Section(open, before, saved)
  {
    var section, next := Section(open, before, saved), Section(open, before, saved + [candidate]);
    SectionLength(open, before, saved, candidate);
    forall i | 0 <= i < |section| ensures next[i] == section[i] {
      LocationGrows(open, before, saved, candidate, i);
    }
  }

  lemma SectionLength(open: Opener, before: seq<Text>, saved: seq<Text>, candidate: Text)
    ensures var place := Open(open, candidate);
            |Section(open, before, saved + [candidate])|
            == |Section(open, before, saved)|
               + if place.None? || place.value.canonical in Firsts(Canonicals(open, saved)) then 0 else 1
  {
    DirectoriesGrow(open, saved, candidate);
  }

  lemma SectionUpdates(open: Opener, before: seq<Text>, saved: seq<Text>, candidate: Text, c: Path, k: nat)
    requires Open(open, candidate).Some? && Open(open, candidate).value.canonical == c
    requires k < |Section(open, before, saved)| && Firsts(Canonicals(open, saved))[k] == c
    ensures var section := Section(open, before, saved);
            Section(open, before, saved + [candidate])
            == if candidate in section[k].sourcePaths then section
               else section[k := section[k].(sourcePaths := section[k].sourcePaths + [candidate])]
  {
    var section, next := Section(open, before, saved), Section(open, before, saved + [candidate]);
    SectionLength(open, before, saved, candidate);
    forall i | 0 <= i < |section|
      ensures next[i] == if i == k && candidate !in section[k].sourcePaths
                         then section[k].(sourcePaths := section[k].sourcePaths + [candidate]) else section[i] {
      LocationGrows(open, before, saved, candidate, i);
    }
  }

  lemma GroupOfNew(open: Opener, before: seq<Text>, saved: seq<Text>, candidate: Text, c: Path, path: Path)
    requires Open(open, candidate).Some? && Open(open, candidate).value.canonical == c && c !in Canonicals(open, saved)
    requires Logical(open, before + saved + [candidate], c) == Some(path)
    ensures c in Canonicals(open, saved + [candidate])
    ensures Group(open, before, saved + [candidate], c) == Location(NameOf(path), path, [candidate])
  {
    assert before + (saved + [candidate]) == before + saved + [candidate];
    NewGroup(open, before, saved, candidate, c);
  }

  lemma LastLocation(open: Opener, before: seq<Text>, saved: seq<Text>, candidate: Text, c: Path, path: Path)
    requires Open(open, candidate).Some? && Open(open, candidate).value.canonical == c && c !in Canonicals(open, saved)
    requires Logical(open, before + saved + [candidate], c) == Some(path)
    ensures var n, next := |Section(open, before, saved)|, Section(open, before, saved + [candidate]);
            |next| == n + 1 && next[n] == Location(NameOf(path), path, [candidate])
  {
    DirectoriesGrow(open, saved, candidate);
    GroupOfNew(open, before, saved, candidate, c, path);
    SectionAt(open, before, saved + [candidate], |Section(open, before, saved)|, c);
  }

  lemma SectionAt(open: Opener, before: seq<Text>, saved: seq<Text>, i: nat, c: Path)
    requires i < |Section(open, before, saved)| && Firsts(Canonicals(open, saved))[i] == c
    ensures Section(open, before, saved)[i] == Group(open, before, saved, c)
  {
  }

  lemma SectionExtends(open: Opener, before: seq<Text>, saved: seq<Text>, candidate: Text, c: Path, path: Path)
    requires Open(open, candidate).Some? && Open(open, candidate).value.canonical == c && c !in Canonicals(open, saved)
    requires Logical(open, before + saved + [candidate], c) == Some(path)
    ensures Section(open, before, saved + [candidate])
         == Section(open, before, saved) + [Location(NameOf(path), path, [candidate])]
  {
    var section, next := Section(open, before, saved), Section(open, before, saved + [candidate]);
    LastLocation(open, before, saved, candidate, c, path);
    forall i | 0 <= i < |section| ensures next[i] == section[i] {
      LocationGrows(open, before, saved, candidate, i);
    }
  }

  /** `groups` finds the location of each canonical directory that has one. */
  ghost predicate Indexes(groups: map<Path, nat>, directories: seq<Path>) {
    && (forall c :: c in groups ==> groups[c] < |directories| && directories[groups[c]] == c)
    && (forall i :: 0 <= i < |directories| ==> directories[i] in groups)
  }

  /** One saved path: it joins the group of its directory, or opens a new one. */
  method Saved(open: Opener, ghost before: seq<Text>, ghost tried: seq<Text>, locations: seq<Location>,
               groups: map<Path, nat>,
               saved: Text, directory: Option<Place>)
    returns (next: seq<Location>, nextGroups: map<Path, nat>)
    requires locations == Section(open, before, tried) && Indexes(groups, Firsts(Canonicals(open, tried)))
    requires match Open(open, saved)
             case None => directory.None?
             case Some(p) => directory.Some? && directory.value.canonical == p.canonical
                             && Logical(open, before + tried + [saved], p.canonical) == Some(directory.value.path)
    ensures next == Section(open, before, tried + [saved])
    ensures Indexes(nextGroups, Firsts(Canonicals(open, tried + [saved])))
  {
    DirectoriesGrow(open, tried, saved);
    if directory.None? {
      SectionKeeps(open, before, tried, saved);
      return locations, groups;
    }
    var canonical, path := directory.value.canonical, directory.value.path;
    ghost var directories := Firsts(Canonicals(open, tried));
    next, nextGroups := JoinGroup(locations, groups, canonical, path, saved, directories);
    if canonical in directories {
      SectionUpdates(open, before, tried, saved, canonical, groups[canonical]);
    } else {
      SectionExtends(open, before, tried, saved, canonical, path);
    }
  }

  /** The grouping itself, on the map from canonical directories to their place in the list. */
  method JoinGroup(locations: seq<Location>, groups: map<Path, nat>, canonical: Path, path: Path, saved: Text,
                   ghost directories: seq<Path>)
    returns (next: seq<Location>, nextGroups: map<Path, nat>)
    requires Indexes(groups, directories) && |locations| == |directories|
    ensures canonical in directories <==> canonical in groups
    ensures canonical in groups ==>
              var k := groups[canonical];
              nextGroups == groups
              && next == if saved in locations[k].sourcePaths then locations
                         else locations[k := locations[k].(sourcePaths := locations[k].sourcePaths + [saved])]
    ensures canonical !in groups ==>
              Indexes(nextGroups, directories + [canonical])
                && next == locations + [Location(NameOf(path), path, [saved])]
  {
    next, nextGroups := locations, groups;
    if canonical in groups {
      var k := groups[canonical];
      if saved !in locations[k].sourcePaths {
        next := locations[k := locations[k].(sourcePaths := locations[k].sourcePaths + [saved])];
      }
    } else {
      nextGroups := groups[canonical := |locations|];
      next := locations + [Location(NameOf(path), path, [saved])];
    }
  }

  /** The loop over one section: groups by canonical directory while it goes. */
  method LocationsOf(open: Opener, ghost before: seq<Text>, saved: seq<Text>, aliases: map<Path, Path>)
    returns (locations: seq<Location>, next: map<Path, Path>)
    requires Aliases(open, before, aliases)
    ensures locations == Section(open, before, saved) && Aliases(open, before + saved, next)
  {
    locations, next := [], aliases;
    var groups: map<Path, nat> := map[];
    assert before + saved[..0] == before;
    for i := 0 to |saved|
      invariant Aliases(open, before + saved[..i], next)
      invariant locations == Section(open, before, saved[..i])
      invariant Indexes(groups, Firsts(Canonicals(open, saved[..i])))
    {
      ghost var tried := saved[..i];
      assert saved[..i + 1] == tried + [saved[i]];
      assert before + saved[..i + 1] == before + tried + [saved[i]];
      var directory;
      directory, next := Authorize(open, before + tried, next, saved[i]);
      locations, groups := Saved(open, before, tried, locations, groups, saved[i], directory);
    }
    assert saved[..|saved|] == saved;
  }

  datatype Locations = Locations(common: seq<(nat, Path)>, favorites: seq<Location>, recent: seq<Location>)

  method AllLocations(open: Opener, candidates: seq<Text>, favorites: seq<Text>, recent: seq<Text>)
    returns (value: Locations)
    ensures value == Locations(CommonOf(open, candidates), Section(open, candidates, favorites),
                               Section(open, candidates + favorites, recent))
  {
    var common, aliases := Common(open, candidates);
    var favoriteLocations, recentLocations;
    favoriteLocations, aliases := LocationsOf(open, candidates, favorites, aliases);
    recentLocations, aliases := LocationsOf(open, candidates + favorites, recent, aliases);
    value := Locations(common, favoriteLocations, recentLocations);
  }

  /**
   * In every section a canonical directory has one entry, in first-appearance order, listing the distinct saved paths
   * that lead to it, and the same logical path in all three sections.
   */
  lemma SectionIs(open: Opener, before: seq<Text>, saved: seq<Text>, more: seq<Text>, i: nat)
    requires i < |Section(open, before, saved)|
    ensures var location, canonical := Section(open, before, saved)[i], Firsts(Canonicals(open, saved))[i];
            && Logical(open, before + saved + more, canonical) == Some(location.path)
            && location.name == NameOf(location.path)
            && (forall t :: t in location.sourcePaths
                  <==> t in saved && Open(open, t).Some? && Open(open, t).value.canonical == canonical)
            && (forall j, k :: 0 <= j < k < |location.sourcePaths| ==>
                  location.sourcePaths[j] != location.sourcePaths[k])
  {
    var canonical := Firsts(Canonicals(open, saved))[i];
    TriedTogether(open, before, saved, canonical);
    LogicalStays(open, before + saved, more, canonical);
    forall t ensures t in Sources(open, saved, canonical)
      <==> t in saved && Open(open, t).Some? && Open(open, t).value.canonical == canonical {
      SourceIff(open, saved, canonical, t);
    }
  }

  lemma {:induction false} SourceIff(open: Opener, saved: seq<Text>, c: Path, t: Text)
    ensures t in Sources(open, saved, c) <==> t in saved && Open(open, t).Some? && Open(open, t).value.canonical == c
  {
    if saved != [] {
      var front, last := saved[..|saved| - 1], saved[|saved| - 1];
      SourceIff(open, front, c, t);
      assert t in saved <==> t in front || t == last;
    }
  }
}
