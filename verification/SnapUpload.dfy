/** `reconcile` of scripts/upload_snap_revision.py, and any number of runs of it against one Store. */
module SnapUpload {
  import opened Options
  import opened SnapLookup

  datatype Saved = Existing(revision: nat) | UploadStarted | UploadOutcomeUnknown | Reconciled(revision: nat)

  /** `accepted` counts the uploads of the artifact that the Store took, `posts` those that were sent. */
  datatype Store = Store(accepted: nat, posts: nat, saved: seq<Saved>)

  /**
   * How the world behaves during one run: what lookup `k` returns, whether the Store takes an upload, whether the
   * response arrives, and whether save `k` reaches the disk.
   */
  datatype World = World(look: nat -> Result<Option<Revision>, Failure>, accepts: bool, responds: bool,
                         saves: nat -> bool)

  const READY: set<string> := {"Published", "Unpublished"}
  const ATTEMPTS: nat := 4

  function Save(s: Store, w: World, k: nat, state: Saved): Result<Store, Failure> {
    if w.saves(k) then Ok(s.(saved := s.saved + [state])) else Err(StateNotSaved)
  }

  /** A revision that was found: its state is saved, and it must not need a review. */
  function Accept(s: Store, w: World, k: nat, found: Revision, existing: bool): (Store, Result<Revision, Failure>) {
    if found.identity.None? then (s, Err(InvalidId))
    else
      match Save(s, w, k, if existing then Existing(found.identity.value) else Reconciled(found.identity.value))
      case Err(e) => (s, Err(e))
      case Ok(t) => if found.status in READY then (t, Ok(found)) else (t, Err(NeedsReview))
  }

  /** The lookups after an upload; errors and empty answers are tried again. */
  function Resolve(s: Store, w: World, attempt: nat): (Store, Result<Revision, Failure>)
    decreases ATTEMPTS - attempt
  {
    if attempt >= ATTEMPTS then (s, Err(Unresolved))
    else match w.look(attempt + 1)
      case Ok(Some(found)) => Accept(s, w, 2, found, false)
      case _ => Resolve(s, w, attempt + 1)
  }

  function Upload(s: Store, w: World): Store {
    s.(posts := s.posts + 1, accepted := if w.accepts then s.accepted + 1 else s.accepted)
  }

  function Reconcile(s: Store, w: World): (Store, Result<Revision, Failure>) {
    match w.look(0)
    case Err(e) => (s, Err(e))
    case Ok(Some(found)) => Accept(s, w, 0, found, true)
    case Ok(None) =>
      match Save(s, w, 0, UploadStarted)
      case Err(e) => (s, Err(e))
      case Ok(started) =>
        var posted := Upload(started, w);
        if w.responds then Resolve(posted, w, 0)
        else match Save(posted, w, 1, UploadOutcomeUnknown)
          case Err(e) => (posted, Err(e))
          case Ok(unknown) => Resolve(unknown, w, 0)
  }

  // ---------------------------------------------------------------- the method

  class Reconciler {
    var accepted: nat
    var posts: nat
    var saved: seq<Saved>

    constructor ()
      ensures View() == Store(0, 0, [])
    {
      accepted, posts, saved := 0, 0, [];
    }

    ghost function View(): Store
      reads this
    {
      Store(accepted, posts, saved)
    }

    method SaveState(w: World, k: nat, state: Saved) returns (ok: bool)
      modifies this`saved
      ensures ok == w.saves(k) && saved == if ok then old(saved) + [state] else old(saved)
    {
      ok := w.saves(k);
      if ok { saved := saved + [state]; }
    }

    method Run(w: World) returns (r: Result<Revision, Failure>)
      modifies this
      ensures (View(), r) == Reconcile(old(View()), w)
    {
      var revision := w.look(0);
      if revision.Err? { return Err(revision.error); }
      if revision.value.Some? {
        r := AcceptRevision(w, 0, revision.value.value, true);
        return;
      }
      var ok := SaveState(w, 0, UploadStarted);
      if !ok { return Err(StateNotSaved); }
      posts := posts + 1;
      if w.accepts { accepted := accepted + 1; }
      if !w.responds {
        ok := SaveState(w, 1, UploadOutcomeUnknown);
        if !ok { return Err(StateNotSaved); }
      }
      ghost var posted := View();
      for attempt := 0 to ATTEMPTS
        invariant View() == posted && Resolve(posted, w, attempt) == Resolve(posted, w, 0)
      {
        revision := w.look(attempt + 1);
        if revision.Ok? && revision.value.Some? {
          r := AcceptRevision(w, 2, revision.value.value, false);
          return;
        }
      }
      r := Err(Unresolved);
    }

    method AcceptRevision(w: World, k: nat, found: Revision, existing: bool) returns (r: Result<Revision, Failure>)
      modifies this`saved
      ensures (View(), r) == Accept(old(View()), w, k, found, existing)
    {
      if found.identity.None? { return Err(InvalidId); }
      var ok := SaveState(w, k, if existing then Existing(found.identity.value) else Reconciled(found.identity.value));
      if !ok { return Err(StateNotSaved); }
      r := if found.status in READY then Ok(found) else Err(NeedsReview);
    }
  }

  // ---------------------------------------------------------------- at most one upload

  /** One run sends at most one upload, and only after a lookup that found nothing. */
  lemma OnePost(s: Store, w: World)
    ensures var t := Reconcile(s, w).0;
            t.posts == s.posts + (if w.look(0) == Ok(None) && w.saves(0) then 1 else 0)
            && t.accepted == s.accepted + (if w.look(0) == Ok(None) && w.saves(0) && w.accepts then 1 else 0)
  {
    var posted := Upload(s.(saved := s.saved + [UploadStarted]), w);
    ResolveSendsNothing(posted, w, 0);
    ResolveSendsNothing(posted.(saved := posted.saved + [UploadOutcomeUnknown]), w, 0);
  }

  lemma {:induction false} ResolveSendsNothing(s: Store, w: World, attempt: nat)
    ensures Resolve(s, w, attempt).0.posts == s.posts && Resolve(s, w, attempt).0.accepted == s.accepted
    decreases ATTEMPTS - attempt
  {
    if attempt < ATTEMPTS {
      ResolveSendsNothing(s, w, attempt + 1);
    }
  }

  /** A read of the Store that shows the digest: every complete chain of pages has it on some page. */
  ghost predicate Shows(get: Getter, a: Artifact) {
    forall urls :: IsChain(get, urls) ==> ShownOn(get, urls, a)
  }

  ghost predicate ShownOn(get: Getter, urls: seq<Url>, a: Artifact) {
    exists r :: OnPages(get, urls, r) && r.sha3 == Some(a.digest)
  }

  lemma ShownIsFound(get: Getter, a: Artifact)
    requires Shows(get, a)
    ensures Lookup(get, a) != Ok(None)
  {
    if Lookup(get, a) == Ok(None) {
      var all := Walk(get, START, {}, [], MAX_PAGES).value;
      var urls := WalkCollects(get, START, {}, [], MAX_PAGES, all);
      assert IsChain(get, urls) && ShownOn(get, urls, a);
      NothingMeansAbsent(get, a, urls);
      assert false;
    }
  }

  function Runs(s: Store, ws: seq<World>): Store
    decreases |ws|
  {
    if ws == [] then s else Runs(Reconcile(s, ws[0]).0, ws[1..])
  }

  /** Lookup `k` of the run was answered by these pages. */
  predicate ReadFrom(w: World, k: nat, get: Getter, a: Artifact) {
    w.look(k) == Lookup(get, a)
  }

  ghost predicate ReadShows(w: World, a: Artifact) {
    exists get :: ReadFrom(w, 0, get, a) && Shows(get, a)
  }

  /** The first read of every run shows an upload that was accepted before. */
  ghost predicate ReadsShowUploads(s: Store, ws: seq<World>, a: Artifact)
    decreases |ws|
  {
    ws != [] ==> (s.accepted > 0 ==> ReadShows(ws[0], a)) && ReadsShowUploads(Reconcile(s, ws[0]).0, ws[1..], a)
  }

  /** However many runs, lost responses, failed uploads and failed reads: the bytes are accepted at most once. */
  lemma {:induction false} AtMostOneAccepted(s: Store, ws: seq<World>, a: Artifact)
    requires s.accepted <= 1 && ReadsShowUploads(s, ws, a)
    ensures Runs(s, ws).accepted <= 1
    ensures s.accepted == 1 ==> Runs(s, ws).posts == s.posts
    decreases |ws|
  {
    if ws != [] {
      OnePost(s, ws[0]);
      if s.accepted == 1 {
        var get :| ReadFrom(ws[0], 0, get, a) && Shows(get, a);
        ShownIsFound(get, a);
      }
      AtMostOneAccepted(Reconcile(s, ws[0]).0, ws[1..], a);
    }
  }

  /** A run that succeeds returns a ready revision that one of its lookups found. */
  lemma SuccessIsVerified(s: Store, w: World, found: Revision) returns (k: nat)
    requires Reconcile(s, w).1 == Ok(found)
    ensures k <= ATTEMPTS && w.look(k) == Ok(Some(found)) && found.status in READY && found.identity.Some?
  {
    if w.look(0) == Ok(None) {
      var posted := Upload(s.(saved := s.saved + [UploadStarted]), w);
      k := ResolvedBy(if w.responds then posted else posted.(saved := posted.saved + [UploadOutcomeUnknown]), w, 0,
                      found);
    } else {
      k := 0;
    }
  }

  lemma {:induction false} ResolvedBy(s: Store, w: World, attempt: nat, found: Revision) returns (k: nat)
    requires Resolve(s, w, attempt).1 == Ok(found)
    ensures k <= ATTEMPTS && w.look(k) == Ok(Some(found)) && found.status in READY && found.identity.Some?
    decreases ATTEMPTS - attempt
  {
    var look := w.look(attempt + 1);
    if look.Ok? && look.value.Some? {
      k := attempt + 1;
    } else {
      k := ResolvedBy(s, w, attempt + 1, found);
    }
  }

  predicate Finds(w: World, k: nat) {
    w.look(k).Ok? && w.look(k).value.Some?
  }

  /** The lookup that ends the waiting: the first of the four after the upload that finds the revision. */
  ghost predicate FirstFound(w: World, k: nat) {
    1 <= k <= 4 && Finds(w, k) && forall j :: 1 <= j < k ==> !Finds(w, j)
  }

  lemma {:induction false} ResolveFinds(s: Store, w: World, attempt: nat, k: nat)
    requires FirstFound(w, k) && attempt < k
    ensures Resolve(s, w, attempt) == Accept(s, w, 2, w.look(k).value.value, false)
    decreases ATTEMPTS - attempt
  {
    if attempt + 1 < k {
      assert !Finds(w, attempt + 1);
      ResolveFinds(s, w, attempt + 1, k);
    }
  }

  lemma {:induction false} ResolveGivesUp(s: Store, w: World, attempt: nat)
    requires forall j :: 1 <= j <= 4 ==> !Finds(w, j)
    ensures Resolve(s, w, attempt) == (s, Err(Unresolved))
    decreases ATTEMPTS - attempt
  {
    if attempt < ATTEMPTS {
      assert !Finds(w, attempt + 1);
      ResolveGivesUp(s, w, attempt + 1);
    }
  }

  /** The upload was sent, and if its response was lost, that was saved. */
  predicate Sent(w: World) {
    w.look(0) == Ok(None) && w.saves(0) && (w.responds || w.saves(1))
  }

  predicate Ready(found: Revision) {
    found.identity.Some? && (found.status == "Published" || found.status == "Unpublished")
  }

  /**
   * After an upload the lookup is made up to four times: a ready revision that appears in one of them, after failures
   * and empty answers only, ends the run in success, and the states saved by then say so.
   */
  lemma AppearsInTime(s: Store, w: World, k: nat)
    requires Sent(w) && FirstFound(w, k)
    ensures var found, (t, r) := w.look(k).value.value, Reconcile(s, w);
            && (r.Ok? <==> Ready(found) && w.saves(2))
            && (r.Ok? ==> r.value == found
                          && t.saved == s.saved + [UploadStarted] + (if w.responds then [] else [UploadOutcomeUnknown])
                                        + [Reconciled(found.identity.value)])
  {
    var posted := Upload(s.(saved := s.saved + [UploadStarted]), w);
    ResolveFinds(if w.responds then posted else posted.(saved := posted.saved + [UploadOutcomeUnknown]), w, 0, k);
  }

  /** A revision that the first lookup finds is saved as an existing one, and nothing is sent. */
  lemma FoundAtOnce(s: Store, w: World)
    requires Finds(w, 0)
    ensures var found, (t, r) := w.look(0).value.value, Reconcile(s, w);
            && t.posts == s.posts && t.accepted == s.accepted && (r.Ok? <==> Ready(found) && w.saves(0))
            && (r.Ok? ==> r.value == found)
            && t.saved == s.saved + if found.identity.Some? && w.saves(0) then [Existing(found.identity.value)] else []
  {
  }

  /** With none in those four the run ends unresolved. */
  lemma NeverAppears(s: Store, w: World)
    requires Sent(w) && forall k :: 1 <= k <= 4 ==> !Finds(w, k)
    ensures Reconcile(s, w).1 == Err(Unresolved)
  {
    var posted := Upload(s.(saved := s.saved + [UploadStarted]), w);
    ResolveGivesUp(if w.responds then posted else posted.(saved := posted.saved + [UploadOutcomeUnknown]), w, 0);
  }

  /** A run succeeds exactly when the first lookup finds a ready revision, or the upload's revision appears in time. */
  lemma SucceedsIff(s: Store, w: World)
    ensures Reconcile(s, w).1.Ok?
       <==> (Finds(w, 0) && Ready(w.look(0).value.value) && w.saves(0))
            || (Sent(w) && w.saves(2) && exists k :: FirstFound(w, k) && Ready(w.look(k).value.value))
  {
    if Sent(w) {
      if k: nat :| 1 <= k <= 4 && Finds(w, k) {
        var first := EarliestFind(w, k);
        AppearsInTime(s, w, first);
        forall other | FirstFound(w, other) ensures other == first {
        }
      } else {
        NeverAppears(s, w);
      }
    }
  }

  lemma {:induction false} EarliestFind(w: World, k: nat) returns (first: nat)
    requires 1 <= k <= 4 && Finds(w, k)
    ensures FirstFound(w, first)
  {
    if j: nat :| 1 <= j < k && Finds(w, j) {
      first := EarliestFind(w, j);
    } else {
      first := k;
    }
  }

  /** The visibility of accepted uploads is needed: with stale first reads a second run uploads again. */
  lemma StaleReadsUploadAgain(a: Artifact)
    ensures exists w, get :: ReadFrom(w, 0, get, a) && Runs(Store(0, 0, []), [w, w]).accepted == 2
  {
    var empty: Getter := _ => Page(true, [], None);
    var w := World(_ => Ok(None), true, true, _ => true);
    assert Walk(empty, START, {}, [], MAX_PAGES) == Ok([]);
    assert ReadFrom(w, 0, empty, a);
    var s0 := Store(0, 0, []);
    var s1 := Reconcile(s0, w).0;
    OnePost(s0, w);
    OnePost(s1, w);
    assert [w, w][1..] == [w] && [w][1..] == [];
    assert Runs(s1, [w]) == Runs(Reconcile(s1, w).0, []);
    assert Runs(s0, [w, w]) == Runs(s1, [w]);
  }
}
