/** The paginated lookup of scripts/upload_snap_revision.py. */
module SnapLookup {
  import opened Options

  type Url = string

  /** `identity` is `None` when it is not a positive numeral, `status` is free text. */
  datatype Revision = Revision(identity: Option<nat>, sha3: Option<string>, size: nat, architectures: seq<string>,
                               version: string, confinement: string, grade: string, status: string)

  /** The next link joined to the page's own address, and whether it stays on the releases endpoint. */
  datatype Link = Link(url: Url, safe: bool)

  /** An answer of the Store; `named` says that it is about this snap and carries a list. */
  datatype Answer = Fails | Page(named: bool, revisions: seq<Revision>, next: Option<Link>)

  /** No address is fetched twice in one lookup, so its answers are a function of the address. */
  type Getter = Url -> Answer

  datatype Failure =
    | ReadFailed | UnexpectedSnapshot | InvalidId | ChangedDuringPagination | PaginationLoop | UnsafeLink | PageLimit
    | AmbiguousMatch | MetadataMismatch | NeedsReview | Unresolved | StateNotSaved

  const START: Url := "https://dashboard.snapcraft.io/api/v2/snaps/motrix/releases?size=500"
  const MAX_PAGES: nat := 100

  function WithIdentity(known: seq<Revision>, identity: Option<nat>): (r: Option<Revision>)
    ensures r.Some? ==> r.value in known && r.value.identity == identity
    ensures r.None? ==> forall k :: 0 <= k < |known| ==> known[k].identity != identity
  {
    if known == [] then None
    else if known[0].identity == identity then Some(known[0])
    else WithIdentity(known[1..], identity)
  }

  /** Adds a page to the dictionary of revisions, which keeps the order of first insertion. */
  function Collect(known: seq<Revision>, page: seq<Revision>): Result<seq<Revision>, Failure>
    decreases |page|
  {
    if page == [] then Ok(known)
    else if page[0].identity.None? then Err(InvalidId)
    else match WithIdentity(known, page[0].identity)
      case Some(same) => if same != page[0] then Err(ChangedDuringPagination) else Collect(known, page[1..])
      case None => Collect(known + [page[0]], page[1..])
  }

  /** The pages from `url` on, with `budget` requests left. */
  function Walk(get: Getter, url: Url, seen: set<Url>, known: seq<Revision>, budget: nat): Result<seq<Revision>,
                Failure>
    decreases budget
  {
    if budget == 0 then Err(PageLimit)
    else if url in seen then Err(PaginationLoop)
    else match get(url)
      case Fails => Err(ReadFailed)
      case Page(named, revisions, next) =>
        if !named then Err(UnexpectedSnapshot)
        else match Collect(known, revisions)
          case Err(e) => Err(e)
          case Ok(all) =>
            match next
            case None => Ok(all)
            case Some(link) =>
              if !link.safe then Err(UnsafeLink) else Walk(get, link.url, seen + {url}, all, budget - 1)
  }

  method ListRevisions(get: Getter, limit: nat := MAX_PAGES)
    returns (r: Result<seq<Revision>, Failure>, ghost fetched: seq<Url>)
    ensures r == Walk(get, START, {}, [], limit)
    ensures |fetched| <= limit && forall i, j :: 0 <= i < j < |fetched| ==> fetched[i] != fetched[j]
    ensures r.Ok? ==> IsChain(get, fetched)
  {
    var url, seen, revisions := START, {}, [];
    fetched := [];
    for i := 0 to limit
      invariant Walk(get, url, seen, revisions, limit - i) == Walk(get, START, {}, [], limit)
      invariant |fetched| == i && (forall u :: u in fetched <==> u in seen)
      invariant forall j, k :: 0 <= j < k < |fetched| ==> fetched[j] != fetched[k]
      invariant LeadsTo(get, fetched, url)
    {
      if url in seen { return Err(PaginationLoop), fetched; }
      seen := seen + {url};
      fetched := fetched + [url];
      var data := get(url);
      if data.Fails? { return Err(ReadFailed), fetched; }
      if !data.named { return Err(UnexpectedSnapshot), fetched; }
      var collected := CollectPage(revisions, data.revisions);
      if collected.Err? { return Err(collected.error), fetched; }
      revisions := collected.value;
      if data.next.None? { return Ok(revisions), fetched; }
      if !data.next.value.safe { return Err(UnsafeLink), fetched; }
      LeadsFurther(get, fetched[..i], url, data.next.value.url);
      assert fetched == fetched[..i] + [url];
      url := data.next.value.url;
    }
    r := Err(PageLimit);
  }

  method CollectPage(known: seq<Revision>, page: seq<Revision>) returns (r: Result<seq<Revision>, Failure>)
    ensures r == Collect(known, page)
  {
    var revisions := known;
    for i := 0 to |page|
      invariant Collect(revisions, page[i..]) == Collect(known, page)
    {
      assert page[i..][0] == page[i] && page[i..][1..] == page[i + 1..];
      if page[i].identity.None? { return Err(InvalidId); }
      var same := WithIdentity(revisions, page[i].identity);
      if same.Some? && same.value != page[i] { return Err(ChangedDuringPagination); }
      if same.None? { revisions := revisions + [page[i]]; }
    }
    r := Ok(revisions);
  }

  // ---------------------------------------------------------------- chains of pages

  predicate Follows(get: Getter, from: Url, to: Url) {
    get(from).Page? && get(from).next.Some? && get(from).next.value == Link(to, true)
  }

  /** The pages fetched so far lead from the start to `url`. */
  predicate LeadsTo(get: Getter, fetched: seq<Url>, url: Url) {
    && (forall i :: 0 <= i < |fetched| - 1 ==> Follows(get, fetched[i], fetched[i + 1]))
    && (if fetched == [] then url == START else fetched[0] == START && Follows(get, fetched[|fetched| - 1], url))
  }

  lemma LeadsFurther(get: Getter, fetched: seq<Url>, url: Url, next: Url)
    requires LeadsTo(get, fetched, url) && Follows(get, url, next)
    ensures LeadsTo(get, fetched + [url], next)
  {
  }

  /** A whole chain of pages, from the start to a page without a next link. */
  predicate IsChain(get: Getter, urls: seq<Url>) {
    && urls != [] && urls[0] == START
    && (forall i :: 0 <= i < |urls| - 1 ==> Follows(get, urls[i], urls[i + 1]))
    && get(urls[|urls| - 1]).Page? && get(urls[|urls| - 1]).next.None?
  }

  /** A revision stands on one of the pages. */
  ghost predicate OnPages(get: Getter, urls: seq<Url>, r: Revision) {
    exists i :: 0 <= i < |urls| && get(urls[i]).Page? && r in get(urls[i]).revisions
  }

  /** There is at most one chain of distinct pages. */
  lemma {:induction false} ChainUnique(get: Getter, a: seq<Url>, b: seq<Url>, k: nat)
    requires IsChain(get, a) && IsChain(get, b) && k < |a|
    ensures k < |b| && a[k] == b[k] && (k == |a| - 1 ==> k == |b| - 1)
  {
    if k > 0 {
      ChainUnique(get, a, b, k - 1);
      assert Follows(get, a[k - 1], a[k]);
      if k - 1 < |b| - 1 { assert Follows(get, b[k - 1], b[k]); }
    }
    if k < |a| - 1 { assert Follows(get, a[k], a[k + 1]); }
    if k < |b| - 1 { assert Follows(get, b[k], b[k + 1]); }
  }

  lemma {:induction false} CollectKeeps(known: seq<Revision>, page: seq<Revision>, all: seq<Revision>)
    requires Collect(known, page) == Ok(all)
    ensures forall r :: r in all <==> r in known || r in page
    ensures forall r :: r in page ==> r.identity.Some?
    ensures Identified(known) ==> Identified(all)
    decreases |page|
  {
    if page != [] {
      var same := WithIdentity(known, page[0].identity);
      if same.None? {
        CollectKeeps(known + [page[0]], page[1..], all);
      } else {
        CollectKeeps(known, page[1..], all);
      }
      assert forall r :: r in page <==> r == page[0] || r in page[1..];
    }
  }

  /** No two revisions share an identity. */
  ghost predicate Identified(known: seq<Revision>) {
    forall i, j :: 0 <= i < j < |known| ==> known[i].identity != known[j].identity
  }

  /** No address twice, and none seen before. */
  predicate Fresh(urls: seq<Url>, seen: set<Url>) {
    && (forall i :: 0 <= i < |urls| ==> urls[i] !in seen)
    && (forall i, j :: 0 <= i < j < |urls| ==> urls[i] != urls[j])
  }

  /** Pages about this snap whose revisions are numbered. */
  predicate AllProper(get: Getter, urls: seq<Url>) {
    forall i :: 0 <= i < |urls| ==>
      get(urls[i]).Page? && get(urls[i]).named && forall r :: r in get(urls[i]).revisions ==> r.identity.Some?
  }

  /** A successful walk has been through a whole chain and returns exactly what stands on its pages. */
  lemma {:induction false} WalkCollects(get: Getter, url: Url, seen: set<Url>, known: seq<Revision>, budget: nat,
                                        all: seq<Revision>)
    returns (urls: seq<Url>)
    requires Walk(get, url, seen, known, budget) == Ok(all)
    ensures urls != [] && urls[0] == url && |urls| <= budget
    ensures forall i :: 0 <= i < |urls| - 1 ==> Follows(get, urls[i], urls[i + 1])
    ensures get(urls[|urls| - 1]).Page? && get(urls[|urls| - 1]).next.None?
    ensures forall r :: r in all <==> r in known || OnPages(get, urls, r)
    ensures Identified(known) ==> Identified(all)
    ensures Fresh(urls, seen) && AllProper(get, urls)
    decreases budget
  {
    var page := get(url);
    var collected := Collect(known, page.revisions).value;
    CollectKeeps(known, page.revisions, collected);
    if page.next.None? {
      urls := [url];
      forall r ensures OnPages(get, urls, r) <==> r in page.revisions {
        if r in page.revisions { assert get(urls[0]).Page? && r in get(urls[0]).revisions; }
      }
    } else {
      var rest := WalkCollects(get, page.next.value.url, seen + {url}, collected, budget - 1, all);
      urls := [url] + rest;
      forall r ensures OnPages(get, urls, r) <==> r in page.revisions || OnPages(get, rest, r) {
        OnPagesCons(get, url, rest, r);
      }
    }
  }

  /** Where a number is repeated, so is the whole revision. */
  ghost predicate Consistent(get: Getter, known: seq<Revision>, urls: seq<Url>) {
    forall r, q :: (r in known || OnPages(get, urls, r)) && (q in known || OnPages(get, urls, q)) ==>
      r == q || r.identity != q.identity
  }

  lemma {:induction false} CollectSucceeds(known: seq<Revision>, page: seq<Revision>)
    requires forall r :: r in page ==> r.identity.Some?
    requires forall r, q :: (r in known || r in page) && (q in known || q in page) ==>
               r == q || r.identity != q.identity
    ensures Collect(known, page).Ok?
    decreases |page|
  {
    if page != [] {
      assert page[0] in page && forall r :: r in page[1..] ==> r in page;
      if WithIdentity(known, page[0].identity).None? {
        CollectSucceeds(known + [page[0]], page[1..]);
      } else {
        CollectSucceeds(known, page[1..]);
      }
    }
  }

  lemma {:induction false} WalkSucceeds(get: Getter, urls: seq<Url>, seen: set<Url>, known: seq<Revision>, budget: nat)
    requires urls != [] && |urls| <= budget && Fresh(urls, seen) && AllProper(get, urls) && Consistent(get, known, urls)
    requires forall i :: 0 <= i < |urls| - 1 ==> Follows(get, urls[i], urls[i + 1])
    requires get(urls[|urls| - 1]).next.None?
    ensures Walk(get, urls[0], seen, known, budget).Ok?
    decreases budget
  {
    var page, rest := get(urls[0]), urls[1..];
    forall r | r in page.revisions ensures OnPages(get, urls, r) {
      assert get(urls[0]).Page? && r in get(urls[0]).revisions;
    }
    CollectSucceeds(known, page.revisions);
    if rest != [] {
      var collected := Collect(known, page.revisions).value;
      CollectKeeps(known, page.revisions, collected);
      assert Follows(get, urls[0], urls[1]) && urls == [urls[0]] + rest;
      forall r | OnPages(get, rest, r) ensures OnPages(get, urls, r) {
        OnPagesCons(get, urls[0], rest, r);
      }
      forall i | 0 <= i < |rest| - 1 ensures Follows(get, rest[i], rest[i + 1]) {
        assert Follows(get, urls[i + 1], urls[i + 2]);
      }
      WalkSucceeds(get, rest, seen + {urls[0]}, collected, budget - 1);
    }
  }

  /** What a Store has to serve for its listing to be accepted. */
  ghost predicate WellFormed(get: Getter, urls: seq<Url>) {
    && IsChain(get, urls) && |urls| <= 100 && AllProper(get, urls) && Consistent(get, [], urls)
    && forall i, j :: 0 <= i < j < |urls| ==> urls[i] != urls[j]
  }

  /**
   * The listing succeeds exactly when there is a chain of at most 100 distinct pages about this snap that agree with
   * one another; then it is what stands on its pages, each revision once.
   */
  lemma ListsIff(get: Getter)
    ensures Walk(get, START, {}, [], MAX_PAGES).Ok? <==> exists urls :: WellFormed(get, urls)
    ensures forall urls :: WellFormed(get, urls) ==>
              var all := Walk(get, START, {}, [], MAX_PAGES);
              all.Ok? && Identified(all.value) && forall r :: r in all.value <==> OnPages(get, urls, r)
  {
    var all := Walk(get, START, {}, [], MAX_PAGES);
    forall urls | WellFormed(get, urls)
      ensures all.Ok? && Identified(all.value) && forall r :: r in all.value <==> OnPages(get, urls, r) {
      WalkSucceeds(get, urls, {}, [], MAX_PAGES);
      var walked := WalkCollects(get, START, {}, [], MAX_PAGES, all.value);
      SameChain(get, walked, urls);
    }
    if all.Ok? {
      var urls := WalkCollects(get, START, {}, [], MAX_PAGES, all.value);
      forall r, q | OnPages(get, urls, r) && OnPages(get, urls, q) && r.identity == q.identity ensures r == q {
        assert r in all.value && q in all.value;
      }
      assert WellFormed(get, urls);
    }
  }

  lemma OnPagesCons(get: Getter, url: Url, rest: seq<Url>, r: Revision)
    requires get(url).Page?
    ensures OnPages(get, [url] + rest, r) <==> r in get(url).revisions || OnPages(get, rest, r)
  {
    var urls := [url] + rest;
    if r in get(url).revisions { assert get(urls[0]).Page? && r in get(urls[0]).revisions; }
    if OnPages(get, rest, r) {
      var i :| 0 <= i < |rest| && get(rest[i]).Page? && r in get(rest[i]).revisions;
      assert urls[i + 1] == rest[i];
    }
    if OnPages(get, urls, r) {
      var i :| 0 <= i < |urls| && get(urls[i]).Page? && r in get(urls[i]).revisions;
      assert i > 0 ==> urls[i] == rest[i - 1];
    }
  }

  // ---------------------------------------------------------------- the lookup

  /** What is being published. */
  datatype Artifact = Artifact(digest: string, size: nat, arch: string, version: string)

  function Matches(revisions: seq<Revision>, digest: string): (ms: seq<Revision>)
    ensures forall r :: r in ms <==> r in revisions && r.sha3 == Some(digest)
    ensures |ms| <= |revisions|
  {
    if revisions == [] then []
    else
      var rest := Matches(revisions[1..], digest);
      if revisions[0].sha3 == Some(digest) then [revisions[0]] + rest else rest
  }

  predicate Describes(r: Revision, a: Artifact) {
    && r.size == a.size && r.architectures == [a.arch] && r.version == a.version
    && r.confinement == "strict" && r.grade == "stable"
  }

  function MatchingRevision(revisions: seq<Revision>, a: Artifact): Result<Option<Revision>, Failure> {
    var matches := Matches(revisions, a.digest);
    if |matches| > 1 then Err(AmbiguousMatch)
    else if matches == [] then Ok(None)
    else if !Describes(matches[0], a) then Err(MetadataMismatch)
    else if matches[0].identity.None? then Err(InvalidId)
    else Ok(Some(matches[0]))
  }

  function Lookup(get: Getter, a: Artifact): Result<Option<Revision>, Failure> {
    match Walk(get, START, {}, [], MAX_PAGES)
    case Err(e) => Err(e)
    case Ok(revisions) => MatchingRevision(revisions, a)
  }

  method LookupRevision(get: Getter, a: Artifact) returns (r: Result<Option<Revision>, Failure>)
    ensures r == Lookup(get, a)
  {
    var revisions, _ := ListRevisions(get);
    if revisions.Err? { return Err(revisions.error); }
    r := MatchingRevision(revisions.value, a);
  }

  /** A lookup that finds nothing has read every page of the chain, and none of them holds the digest. */
  lemma NothingMeansAbsent(get: Getter, a: Artifact, urls: seq<Url>)
    requires Lookup(get, a) == Ok(None) && IsChain(get, urls)
    ensures |urls| <= MAX_PAGES && forall r :: OnPages(get, urls, r) ==> r.sha3 != Some(a.digest)
  {
    var all := Walk(get, START, {}, [], MAX_PAGES).value;
    var walked := WalkCollects(get, START, {}, [], MAX_PAGES, all);
    SameChain(get, walked, urls);
    forall r | OnPages(get, urls, r) ensures r.sha3 != Some(a.digest) {
      assert r in all;
      assert r !in Matches(all, a.digest);
    }
  }

  lemma SameChain(get: Getter, a: seq<Url>, b: seq<Url>)
    requires IsChain(get, a) && IsChain(get, b)
    ensures a == b
  {
    ChainUnique(get, a, b, |a| - 1);
    forall k | 0 <= k < |a| ensures a[k] == b[k] {
      ChainUnique(get, a, b, k);
    }
  }

  /** What the Store has to say about the artifact's bytes. */
  predicate SaysSo(r: Revision, a: Artifact) {
    && r.sha3 == Some(a.digest) && r.size == a.size && r.architectures == [a.arch] && r.version == a.version
    && r.confinement == "strict" && r.grade == "stable"
  }

  /** `r` is on the pages with the artifact's digest, and nothing else is. */
  ghost predicate OnlyWithDigest(get: Getter, urls: seq<Url>, a: Artifact, r: Revision) {
    && OnPages(get, urls, r) && r.sha3 == Some(a.digest)
    && forall q :: OnPages(get, urls, q) && q.sha3 == Some(a.digest) ==> q == r
  }

  lemma {:induction false} OneMatch(all: seq<Revision>, digest: string)
    requires Identified(all)
    ensures |Matches(all, digest)| > 1
       <==> exists r, q :: r in all && q in all && r != q && r.sha3 == q.sha3 == Some(digest)
    decreases |all|
  {
    if all != [] {
      var rest := all[1..];
      assert Identified(rest) by {
        assert forall i :: 0 <= i < |rest| ==> rest[i] == all[i + 1];
      }
      OneMatch(rest, digest);
      assert forall r :: r in all <==> r == all[0] || r in rest;
      assert all[0] !in rest;
      if all[0].sha3 == Some(digest) && Matches(rest, digest) != [] {
        assert Matches(rest, digest)[0] in rest;
      }
    }
  }

  /**
   * On a well-formed listing the lookup finds exactly the one revision with the digest, if the Store says of it what it
   * should; it finds nothing exactly if there is none; two of them, or other metadata, are errors.
   */
  lemma LookupIff(get: Getter, a: Artifact, urls: seq<Url>)
    requires WellFormed(get, urls)
    ensures forall r :: Lookup(get, a) == Ok(Some(r)) <==> OnlyWithDigest(get, urls, a, r) && SaysSo(r, a)
    ensures Lookup(get, a) == Ok(None) <==> forall r :: OnPages(get, urls, r) ==> r.sha3 != Some(a.digest)
    ensures Lookup(get, a) == Err(MetadataMismatch)
       <==> exists r :: OnlyWithDigest(get, urls, a, r) && !SaysSo(r, a)
    ensures Lookup(get, a) == Err(AmbiguousMatch)
       <==> exists r, q ::
              OnPages(get, urls, r) && OnPages(get, urls, q) && r != q && r.sha3 == q.sha3 == Some(a.digest)
  {
    ListsIff(get);
    var all := Walk(get, START, {}, [], MAX_PAGES).value;
    var matches := Matches(all, a.digest);
    OneMatch(all, a.digest);
    if matches != [] {
      assert matches[0] in all;
      assert OnPages(get, urls, matches[0]);
      Numbered(get, urls, matches[0]);
    }
  }

  lemma Numbered(get: Getter, urls: seq<Url>, r: Revision)
    requires AllProper(get, urls) && OnPages(get, urls, r)
    ensures r.identity.Some?
  {
  }

  /** A lookup that finds a revision has found the only one on its pages with the digest, with the right metadata. */
  lemma FoundMeansOnly(get: Getter, a: Artifact, found: Revision) returns (urls: seq<Url>)
    requires Lookup(get, a) == Ok(Some(found))
    ensures IsChain(get, urls) && OnPages(get, urls, found) && Describes(found, a) && found.sha3 == Some(a.digest)
    ensures forall r :: OnPages(get, urls, r) && r.sha3 == Some(a.digest) ==> r == found
  {
    ListsIff(get);
    urls :| WellFormed(get, urls);
    LookupIff(get, a, urls);
  }
}
