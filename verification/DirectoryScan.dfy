/** The scan loop of `list` in src/server/server-directory-service.ts. */
module DirectoryScan {
  import opened Options
  import opened Texts
  import opened PathAlgebra

  const PATH_LIMIT: nat := 4096

  datatype Code = OutsideRoots | Missing | NotDirectory | NotFile | Denied | Unavailable

  /** `tooDeep`: a loop of links, or a name that is too long. */
  datatype Failure = Failure(code: Code, tooDeep: bool)

  /** What reading gives for one child: its type, and how authorising it as a directory or opening it as a file ends. */
  datatype Dirent = Dirent(name: Text, isDirectory: bool, isLink: bool, isFile: bool, pathLength: nat,
                           directory: Result<Path, Failure>, file: Result<Path, Failure>)

  datatype Entry = Entry(name: Text, path: Path, isFile: bool)

  datatype Request = Request(showHidden: bool, includeFiles: bool)

  const SCAN_LIMIT: nat := 10000
  const ENTRY_LIMIT: nat := 2000

  /** Names that are looked at at all. */
  predicate Considered(o: Request, d: Dirent) {
    (o.showHidden || d.name == [] || d.name[0] != 46) && (d.isDirectory || d.isLink || (o.includeFiles && d.isFile))
  }

  /** The entry of a child, or why it has none. */
  function Child(o: Request, d: Dirent): Result<Entry, Failure> {
    match d.directory
    case Ok(path) => Ok(Entry(d.name, path, false))
    case Err(e) =>
      if !o.includeFiles || e.code != NotDirectory then Err(e)
      else match d.file case Err(f) => Err(f) case Ok(path) => Ok(Entry(d.name, path, true))
  }

  /** Failures of a child that leave its siblings alone. */
  predicate Benign(f: Failure) {
    f.tooDeep || f.code != Unavailable
  }

  /** The entries that a listing without limits has, in reading order. */
  function Eligible(o: Request, ds: seq<Dirent>): seq<Entry> {
    if ds == [] then []
    else
      var front, d := Eligible(o, ds[..|ds| - 1]), ds[|ds| - 1];
      if Considered(o, d) && d.pathLength <= PATH_LIMIT && Child(o, d).Ok? then front + [Child(o, d).value] else front
  }

  predicate TooLong(o: Request, d: Dirent) {
    Considered(o, d) && d.pathLength > PATH_LIMIT
  }

  predicate Fatal(o: Request, d: Dirent) {
    Considered(o, d) && d.pathLength <= PATH_LIMIT && Child(o, d).Err? && !Benign(Child(o, d).error)
  }

  /**
   * The scan reads some first part of the directory. It fails on the first child with an unexpected error; otherwise
   * it returns the eligible entries of what it read, and says whether anything may be missing.
   */
  method Scan(o: Request, ds: seq<Dirent>) returns (r: Result<seq<Entry>, Failure>, truncated: bool, scanned: nat)
    ensures scanned <= |ds| && scanned <= SCAN_LIMIT
    ensures r.Ok? ==>
              && r.value == Eligible(o, ds[..scanned]) && |r.value| <= ENTRY_LIMIT
              && (forall i :: 0 <= i < scanned ==> !Fatal(o, ds[i]))
              && (scanned == |ds| || scanned == SCAN_LIMIT || |r.value| == ENTRY_LIMIT)
              && (truncated <==> scanned == SCAN_LIMIT || |r.value| == ENTRY_LIMIT
                                 || exists i :: 0 <= i < scanned && TooLong(o, ds[i]))
    ensures r.Err? ==> scanned > 0 && Fatal(o, ds[scanned - 1]) && r.error == Child(o, ds[scanned - 1]).error
  {
    var entries := [];
    scanned, truncated := 0, false;
    while scanned < SCAN_LIMIT && |entries| < ENTRY_LIMIT && scanned < |ds|
      invariant scanned <= |ds| && scanned <= SCAN_LIMIT
      invariant entries == Eligible(o, ds[..scanned]) && |entries| <= ENTRY_LIMIT
      invariant forall i :: 0 <= i < scanned ==> !Fatal(o, ds[i])
      invariant truncated <==> exists i :: 0 <= i < scanned && TooLong(o, ds[i])
      decreases |ds| - scanned
    {
      var d := ds[scanned];
      assert ds[..scanned + 1][..scanned] == ds[..scanned];
      scanned := scanned + 1;
      if !o.showHidden && d.name != [] && d.name[0] == 46 { continue; }
      if !d.isDirectory && !d.isLink && !(o.includeFiles && d.isFile) { continue; }
      if d.pathLength > PATH_LIMIT {
        assert TooLong(o, ds[scanned - 1]);
        truncated := true;
        continue;
      }
      var child := Child(o, d);
      if child.Err? {
        if !Benign(child.error) { return Err(child.error), truncated, scanned; }
        continue;
      }
      entries := entries + [child.value];
    }
    truncated := truncated || scanned == SCAN_LIMIT || |entries| == ENTRY_LIMIT;
    r := Ok(entries);
  }

  /** A listing that does not call itself truncated has read everything and left out no eligible child. */
  lemma UntruncatedIsComplete(o: Request, ds: seq<Dirent>, entries: seq<Entry>, scanned: nat, d: Dirent)
    requires scanned <= |ds| && entries == Eligible(o, ds[..scanned])
    requires scanned == |ds| || scanned == SCAN_LIMIT || |entries| == ENTRY_LIMIT
    requires !(scanned == SCAN_LIMIT || |entries| == ENTRY_LIMIT || exists i :: 0 <= i < scanned && TooLong(o, ds[i]))
    requires d in ds && Considered(o, d) && Child(o, d).Ok?
    ensures scanned == |ds| && Child(o, d).value in entries
  {
    var i :| 0 <= i < |ds| && ds[i] == d;
    assert !TooLong(o, ds[i]);
    assert ds[..|ds|] == ds;
    EligibleHas(o, ds, i);
  }

  lemma {:induction false} EligibleHas(o: Request, ds: seq<Dirent>, i: nat)
    requires i < |ds| && Considered(o, ds[i]) && ds[i].pathLength <= PATH_LIMIT && Child(o, ds[i]).Ok?
    ensures Child(o, ds[i]).value in Eligible(o, ds)
    decreases |ds|
  {
    if i < |ds| - 1 {
      EligibleHas(o, ds[..|ds| - 1], i);
    }
  }

  /** A name that is shown, of a directory, a link, or a file when wanted, with a path that is not too long. */
  predicate LookedAt(o: Request, d: Dirent) {
    && (d.name == [] || d.name[0] != '.' as int || o.showHidden)
    && (d.isDirectory || d.isLink || (d.isFile && o.includeFiles)) && d.pathLength <= 4096
  }

  /** How a child is listed: as a directory if it can be authorised as one, else as a file if it is none. */
  predicate ListedAs(o: Request, d: Dirent, e: Entry) {
    && LookedAt(o, d) && e.name == d.name
    && (if d.directory.Ok? then e.path == d.directory.value && !e.isFile
        else o.includeFiles && d.directory.error.code == NotDirectory
             && d.file.Ok? && e.path == d.file.value && e.isFile)
  }

  /** An entry stands in a listing exactly if some child is listed as it. */
  lemma {:induction false} EligibleIff(o: Request, ds: seq<Dirent>, e: Entry)
    ensures e in Eligible(o, ds) <==> exists i :: 0 <= i < |ds| && ListedAs(o, ds[i], e)
    decreases |ds|
  {
    if ds != [] {
      EligibleIff(o, ds[..|ds| - 1], e);
    }
  }

  /** Each child is listed at most once, and the listing keeps the order of reading. */
  lemma EligibleGrows(o: Request, ds: seq<Dirent>, d: Dirent)
    ensures var before, after := Eligible(o, ds), Eligible(o, ds + [d]);
            if exists e :: ListedAs(o, d, e)
            then |after| == |before| + 1 && before <= after && ListedAs(o, d, after[|before|])
            else after == before
  {
    assert (ds + [d])[..|ds|] == ds;
    if Considered(o, d) && d.pathLength <= PATH_LIMIT && Child(o, d).Ok? {
      assert ListedAs(o, d, Child(o, d).value);
    }
  }

  /** A child whose path is too long is the one shown kind that is passed over silently, and marks the listing. */
  lemma TooLongIff(o: Request, d: Dirent)
    ensures TooLong(o, d) <==> d.pathLength > 4096 && LookedAt(o, d.(pathLength := 0))
  {
  }

  /** The scan stops at a child whose failure is neither about the child itself nor about its depth. */
  lemma FatalIff(o: Request, d: Dirent)
    ensures Fatal(o, d)
       <==> LookedAt(o, d) && d.directory.Err?
            && var wasFile := o.includeFiles && d.directory.error.code == NotDirectory;
               && (wasFile ==> d.file.Err?)
               && var f := if wasFile then d.file.error else d.directory.error;
                  f.code == Unavailable && !f.tooDeep
  {
  }
}
