/** What the polling loop promises in every interleaving, and that undisturbed it does what PollMachine says. */
module PollProofs {
  import opened Options
  import opened TaskRegistry
  import opened PollMachine
  import opened PollSteps

  // ---------------------------------------------------------------- durable before visible

  /** Only these two places of a poll publish: where a commit's write is over, and where an update needs none. */
  lemma WherePublished(merge: Merge, s: State, id: Id)
    requires Inv(s) && MintsFresh(s)
    ensures var before, after := s.world.registry.tasks, Resume(merge, s).world.registry.tasks;
            && (id in before ==> id in after)
            && (id in after && (id !in before || after[id].status != before[id].status) ==>
                  || (s.place.Publishing? && s.place.c.id == id && after[id] == s.place.c.task)
                  || (s.place.Updating? && s.place.id == id && id in before && !Terminal(after[id].status)))
  {
    match s.place
    case Observing(row) => ObservedKeepsStatus(merge, s, row, id);
    case Publishing(c) => Published(s, c.id, c.task);
    case Updating(other, _, merged) => Published(s, other, merged);
    case _ =>
  }

  lemma Published(s: State, id: Id, task: Task)
    requires Valid(s.world.registry)
    ensures Publish(s, id, task).world.registry.tasks == s.world.registry.tasks[id := task]
    ensures Publish(s, id, task).world.durable == s.world.durable
  {
    SetKeeps(s.world.registry, id, task);
  }

  lemma ObservedKeepsStatus(merge: Merge, s: State, row: Row, id: Id)
    requires Inv(s) && s.place == Observing(row)
    ensures var before, after := s.world.registry.tasks, Resume(merge, s).world.registry.tasks;
            && (id in after <==> id in before) && (id in before ==> after[id].status == before[id].status)
  {
    if row.cleanup != Declined {
      CleanUpPublishesNothing(s, row);
    } else if Owner(s.world.registry, row.gid).Some? {
      var owner := Owner(s.world.registry, row.gid).value;
      UpdateKeepsStatus(merge, s, owner, s.world.registry.tasks[owner], row, id);
    }
  }

  lemma CleanUpPublishesNothing(s: State, row: Row)
    ensures StartCleanUp(s, row).world == s.world
  {
  }

  lemma UpdateKeepsStatus(merge: Merge, s: State, owner: Id, existing: Task, row: Row, id: Id)
    requires Valid(s.world.registry) && owner in s.world.registry.tasks && existing == s.world.registry.tasks[owner]
    ensures var before := s.world.registry.tasks;
            var after := StartUpdate(merge, s, owner, existing, row).world.registry.tasks;
            && (id in after <==> id in before) && (id in before ==> after[id].status == before[id].status)
  {
    Published(s, owner, Merged(merge, existing, row));
  }

  /**
   * When an existing task turns Completed or Error in memory, its row was written before, and its occurrence is
   * there.
   */
  lemma TurnsAfterWrite(merge: Merge, s: State, id: Id)
    requires Inv(s) && MintsFresh(s) && id in s.world.registry.tasks
    requires var after := Resume(merge, s).world.registry.tasks;
             id in after && after[id].status != s.world.registry.tasks[id].status && Terminal(after[id].status)
    ensures var status := Resume(merge, s).world.registry.tasks[id].status;
            id in s.world.durable && (id, status) in s.history.written && (id, status) in s.world.occurrences
    ensures s.place.Publishing? && s.place.c.id == id
  {
    WherePublished(merge, s, id);
  }

  /** The status in the row of `id` after the events of others: the one that was saved last, or the one before. */
  function RowAfter(status: Status, es: seq<Event>, id: Id): Status
    decreases |es|
  {
    if es == [] then status
    else RowAfter(if es[0].Saved? && es[0].id == id then es[0].status else status, es[1..], id)
  }

  lemma OthersKeepRow(merge: Merge, s: State, e: Event, c: Commit, status: Status)
    requires Inv(s) && s.place == Publishing(c) && OnDisk(s.world, c.id, status) && Enabled(s, e) && e != Resumed
    ensures Step(merge, s, e).place == Publishing(c)
    ensures OnDisk(Step(merge, s, e).world, c.id, if e.Saved? && e.id == c.id then e.status else status)
  {
  }

  /** What the row says when a commit is published: what it wrote, or what saves of the session have written since. */
  lemma {:induction false} RowWhenPublished(merge: Merge, s: State, es: seq<Event>, c: Commit, status: Status)
    requires Inv(s) && s.place == Publishing(c) && OnDisk(s.world, c.id, status) && Legal(merge, s, es)
    requires forall i :: 0 <= i < |es| ==> es[i] != Resumed
    ensures After(merge, s, es).place == Publishing(c)
    ensures OnDisk(After(merge, s, es).world, c.id, RowAfter(status, es, c.id))
    decreases |es|
  {
    if es != [] {
      var e, rest := es[0], es[1..];
      assert e != Resumed && forall i :: 0 <= i < |rest| ==> rest[i] == es[i + 1];
      StepKeeps(merge, s, e);
      OthersKeepRow(merge, s, e, c, status);
      RowWhenPublished(merge, Step(merge, s, e), rest, c, if e.Saved? && e.id == c.id then e.status else status);
    }
  }

  /** A save with a snapshot from before the publication reverts the row when it is written after it. */
  lemma SaveRevertsRow(merge: Merge, s: State, c: Commit)
    requires Inv(s) && s.place == Publishing(c) && c.id in s.world.registry.tasks
    requires s.world.registry.tasks[c.id].status !in {c.task.status, Removed}
    ensures var before, t := s.world.registry.tasks[c.id].status, Resume(merge, s);
            && Enabled(t, Saved(c.id, before))
            && var u := Step(merge, t, Saved(c.id, before));
               && c.id in u.world.registry.tasks && u.world.registry.tasks[c.id].status == c.task.status
               && Terminal(c.task.status) && OnDisk(u.world, c.id, before)
  {
    Published(s, c.id, c.task);
  }

  /**
   * When a task enters memory its row is on disk already, in the state before, exactly unless its adoption was decided
   * while the runtime was disposed or for a row that the engine reports as removed.
   */
  lemma EntersAfterWrite(merge: Merge, s: State, id: Id)
    requires Inv(s) && MintsFresh(s) && id !in s.world.registry.tasks && id in Resume(merge, s).world.registry.tasks
    ensures OnDisk(s.world, id, Resume(merge, s).world.registry.tasks[id].status) <==> id !in s.history.exempt
  {
    WherePublished(merge, s, id);
  }

  /** A task becomes exempt where its adoption is decided, and for these two reasons only. */
  lemma ExemptIff(merge: Merge, s: State, id: Id)
    requires Inv(s) && MintsFresh(s) && id !in s.history.exempt
    ensures id in Resume(merge, s).history.exempt
            <==> && s.place.Observing? && id == s.place.row.newId
                 && Owner(s.world.registry, s.place.row.gid) == None
                 && (|| (s.place.row.cleanup == Declined && (s.world.disposed || s.place.row.status == Removed))
                     || (s.place.row.cleanup == Adopted && s.world.disposed))
  {
  }

  /** No segment both writes and publishes, and none erases anything from disk. */
  lemma OneHalfAtATime(merge: Merge, s: State)
    ensures var t := Resume(merge, s);
            && (t.world.registry == s.world.registry
                || (t.world.durable == s.world.durable && t.world.occurrences == s.world.occurrences))
            && s.world.durable.Keys <= t.world.durable.Keys && s.world.occurrences <= t.world.occurrences
            && t.world.disposed == s.world.disposed
  {
    if s.place.Observing? && s.place.row.cleanup == Declined && Owner(s.world.registry, s.place.row.gid).Some? {
      var id := Owner(s.world.registry, s.place.row.gid).value;
      UpdateLeavesDisk(merge, s, id, s.world.registry.tasks[id], s.place.row);
    } else if s.place.Observing? && s.place.row.cleanup != Declined {
      CleanUpPublishesNothing(s, s.place.row);
    }
  }

  lemma UpdateLeavesDisk(merge: Merge, s: State, id: Id, existing: Task, row: Row)
    ensures var t := StartUpdate(merge, s, id, existing, row); t.world == s.world.(registry := t.world.registry)
  {
  }

  /**
   * From the start, whatever polls, writes, failures, disposals, saves and deletions follow: every task in memory that
   * is not exempt has a row, every final status in memory was written before, and every one that an existing task was
   * given has its occurrence.
   */
  lemma Reachable(merge: Merge, es: seq<Event>)
    requires Legal(merge, INITIAL, es)
    ensures var s := After(merge, INITIAL, es);
            && (forall id :: id in s.world.registry.tasks && id !in s.history.exempt ==>
                  && id in s.world.durable
                  && (Terminal(s.world.registry.tasks[id].status) ==>
                        (id, s.world.registry.tasks[id].status) in s.history.written))
            && (forall p :: p in s.history.turned ==> p in s.history.written && p in s.world.occurrences)
  {
    RunKeeps(merge, INITIAL, es);
    var s := After(merge, INITIAL, es);
    assert forall id :: id in s.world.registry.tasks ==> TaskBacked(s, id);
  }

  /** A final status and its row say the same. */
  predicate Together(s: State, id: Id) {
    id in s.world.registry.tasks && Terminal(s.world.registry.tasks[id].status)
    ==> OnDisk(s.world, id, s.world.registry.tasks[id].status)
  }

  /**
   * Between the halves of a commit that takes a task from one final status to another they do not, and after it they
   * do.
   */
  lemma RowIsAhead(merge: Merge, s: State, c: Commit)
    requires Inv(s) && s.place == Writing(c) && c.writes && c.id in s.world.registry.tasks
    requires Terminal(s.world.registry.tasks[c.id].status) && s.world.registry.tasks[c.id].status != c.task.status
    ensures var t := Resume(merge, s);
            !Together(t, c.id) && Together(Resume(merge, t), c.id) && (c.id, c.task.status) in t.world.occurrences
  {
    WriteIsOver(merge, s, c);
    PublicationIsOver(merge, Resume(merge, s), c);
  }

  lemma WriteIsOver(merge: Merge, s: State, c: Commit)
    requires Inv(s) && s.place == Writing(c) && c.writes && c.id in s.world.registry.tasks
    ensures var t := Resume(merge, s);
            && t.place == Publishing(c) && t.world.registry == s.world.registry
            && OnDisk(t.world, c.id, c.task.status) && (c.id, c.task.status) in t.world.occurrences
  {
  }

  lemma PublicationIsOver(merge: Merge, s: State, c: Commit)
    requires Valid(s.world.registry) && s.place == Publishing(c) && OnDisk(s.world, c.id, c.task.status)
    ensures Together(Resume(merge, s), c.id)
  {
    Published(s, c.id, c.task);
  }

  /** They come apart only by a later write, or when the row of a commit is gone before it is published. */
  lemma ApartOnlyBy(merge: Merge, s: State, e: Event, id: Id)
    requires Inv(s) && Enabled(s, e) && Together(s, id) && !Together(Step(merge, s, e), id) && id !in s.history.exempt
    ensures || (e.OtherWrites? && e.id == id) || (e.Saved? && e.id == id)
            || (e == Resumed && s.place.Writing? && s.place.c.id == id)
            || (e == Resumed && s.place.Publishing? && s.place.c.id == id
                && !OnDisk(s.world, id, s.place.c.task.status))
  {
    match e
    case Resumed => ResumedApart(merge, s, id);
    case OtherPublishes(other, task) => Published(s, other, task);
    case Deleted(other) => RemoveKeeps(s.world.registry, other);
    case _ =>
  }

  lemma ResumedApart(merge: Merge, s: State, id: Id)
    requires Inv(s) && MintsFresh(s) && Together(s, id) && !Together(Resume(merge, s), id)
    ensures (s.place.Writing? || s.place.Publishing?) && s.place.c.id == id
    ensures s.place.Publishing? ==> !OnDisk(s.world, id, s.place.c.task.status)
  {
    WherePublished(merge, s, id);
    OneHalfAtATime(merge, s);
    WhereWritten(merge, s, id);
  }

  lemma WhereWritten(merge: Merge, s: State, id: Id)
    ensures Resume(merge, s).world.durable != s.world.durable ==> s.place.Writing?
    ensures s.place.Writing? ==> Resume(merge, s).world.registry == s.world.registry
    ensures s.place.Writing? && s.place.c.id != id ==>
              (id in Resume(merge, s).world.durable <==> id in s.world.durable)
              && (id in s.world.durable ==> Resume(merge, s).world.durable[id] == s.world.durable[id])
  {
    if s.place.Observing? && s.place.row.cleanup == Declined && Owner(s.world.registry, s.place.row.gid).Some? {
      var owner := Owner(s.world.registry, s.place.row.gid).value;
      UpdateLeavesDisk(merge, s, owner, s.world.registry.tasks[owner], s.place.row);
    } else if s.place.Observing? && s.place.row.cleanup != Declined {
      CleanUpPublishesNothing(s, s.place.row);
    }
  }

  // ---------------------------------------------------------------- staleness

  /** Something else was stored under the id, or it was removed. */
  predicate Touches(e: Event, id: Id) {
    match e
    case OtherPublishes(other, _) => other == id
    case Deleted(other) => other == id
    case _ => false
  }

  predicate Touched(es: seq<Event>, id: Id) {
    exists i :: 0 <= i < |es| && Touches(es[i], id)
  }

  /** The poll stays suspended, and every object that is stored is another one than `existing`. */
  predicate Meanwhile(es: seq<Event>, existing: Task) {
    forall i :: 0 <= i < |es| ==>
      es[i] != Resumed && (es[i].OtherPublishes? ==> es[i].task.identity != existing.identity)
  }

  lemma OtherStep(merge: Merge, s: State, e: Event, id: Id, existing: Task)
    requires Inv(s) && Enabled(s, e) && !s.place.Ended? && e != Resumed
    requires e.OtherPublishes? ==> e.task.identity != existing.identity
    ensures Step(merge, s, e).place == s.place
    ensures if Touches(e, id) then !IsCurrent(Step(merge, s, e).world, id, existing)
            else (IsCurrent(Step(merge, s, e).world, id, existing) <==> IsCurrent(s.world, id, existing))
  {
    match e
    case OtherPublishes(other, task) => SetKeeps(s.world.registry, other, task);
    case Deleted(other) => RemoveKeeps(s.world.registry, other);
    case _ =>
  }

  /**
   * When the lock is granted at last, the commit goes on exactly if nobody has stored or removed the task in between.
   */
  lemma {:induction false} CurrentIffUntouched(merge: Merge, s: State, es: seq<Event>, id: Id, existing: Task)
    requires Inv(s) && !s.place.Ended? && Legal(merge, s, es) && Meanwhile(es, existing)
    ensures After(merge, s, es).place == s.place
    ensures IsCurrent(After(merge, s, es).world, id, existing) <==> IsCurrent(s.world, id, existing) && !Touched(es, id)
    decreases |es|
  {
    if es != [] {
      var e, rest := es[0], es[1..];
      StepKeeps(merge, s, e);
      assert forall i :: 0 <= i < |rest| ==> rest[i] == es[i + 1];
      assert e != Resumed;
      OtherStep(merge, s, e, id, existing);
      CurrentIffUntouched(merge, Step(merge, s, e), rest, id, existing);
      TouchedFirst(es, id);
    }
  }

  lemma TouchedFirst(es: seq<Event>, id: Id)
    requires es != []
    ensures Touched(es, id) <==> Touches(es[0], id) || Touched(es[1..], id)
  {
    assert forall i :: 0 < i < |es| ==> es[i] == es[1..][i - 1];
  }

  /** Then it writes, and otherwise it changes nothing at all. */
  lemma StaleCommitsNothing(merge: Merge, s: State, es: seq<Event>)
    requires Inv(s) && s.place.Waiting? && IsCurrent(s.world, s.place.id, s.place.existing)
    requires Legal(merge, s, es) && Meanwhile(es, s.place.existing)
    ensures var w := After(merge, s, es);
            var t := Resume(merge, w);
            && t.world == w.world && t.history == w.history
            && (if Touched(es, s.place.id) then t.place == AtRow && t.dirty == w.dirty
                else t.place.Writing? && t.place.c.id == s.place.id && t.place.c.task == s.place.merged)
  {
    CurrentIffUntouched(merge, s, es, s.place.id, s.place.existing);
  }

  // ---------------------------------------------------------------- retired ids

  /** When the owner is removed while `observe` is awaited, the retired id is taken for a new engine task. */
  lemma RemovedMeanwhileIsMintedAgain(merge: Merge, s: State, row: Row, id: Id)
    requires Inv(s) && !s.world.disposed && s.place == Observing(row) && row.cleanup == Declined && row.writes
    requires MintsFresh(s)
    requires row.gid in IndexedOf(s.world.registry, id) && row.gid != ""
    requires |IndexedOf(s.world.registry, id)| <= MAX_RETIRED
    ensures var removed := Step(merge, s, Deleted(id));
            var minted := After(merge, removed, [Resumed, Resumed, Resumed]);
            && Enabled(s, Deleted(id)) && Legal(merge, removed, [Resumed, Resumed, Resumed])
            && IsRetired(removed.world.registry, row.gid)
            && Owner(minted.world.registry, row.gid) == Some(row.newId) && !IsRetired(minted.world.registry, row.gid)
  {
    var removed := Step(merge, s, Deleted(id));
    StepKeeps(merge, s, Deleted(id));
    RemovedAreShielded(s.world.registry, id, row.gid);
    RemoveKeeps(s.world.registry, id);
    AdoptsInThree(merge, removed, row);
  }

  lemma AdoptsInThree(merge: Merge, s: State, row: Row)
    requires Inv(s) && !s.world.disposed && s.place == Observing(row) && row.cleanup == Declined && row.writes
    requires MintsFresh(s)
    requires Owner(s.world.registry, row.gid) == None
    ensures var t := After(merge, s, [Resumed, Resumed, Resumed]);
            && Legal(merge, s, [Resumed, Resumed, Resumed])
            && Owner(t.world.registry, row.gid) == Some(row.newId) && !IsRetired(t.world.registry, row.gid)
  {
    var c := Commit(row.newId, Snapshot(row), TaskRow, true, Unchanged, NoOccurrence, row.dispatches);
    var a := Resume(merge, s);
    assert a.place == Writing(c) && a.world == s.world;
    SetKeeps(s.world.registry, row.newId, Snapshot(row));
    assert row.gid in Snapshot(row).gids;
    CommitInTwo(merge, a, c);
    ThreeSegments(merge, s, a, Resume(merge, a), Resume(merge, Resume(merge, a)));
  }

  lemma CommitInTwo(merge: Merge, s: State, c: Commit)
    requires s.place == Writing(c) && c.writes
    ensures Enabled(s, Resumed) && Enabled(Resume(merge, s), Resumed)
    ensures Resume(merge, Resume(merge, s)).world.registry == AfterSet(s.world.registry, c.id, c.task)
  {
  }

  lemma ThreeSegments(merge: Merge, s: State, a: State, b: State, c: State)
    requires Enabled(s, Resumed) && a == Resume(merge, s) && Enabled(a, Resumed) && b == Resume(merge, a)
    requires Enabled(b, Resumed) && c == Resume(merge, b)
    ensures Legal(merge, s, [Resumed, Resumed, Resumed]) && After(merge, s, [Resumed, Resumed, Resumed]) == c
  {
    assert [Resumed, Resumed, Resumed][1..] == [Resumed, Resumed] && [Resumed, Resumed][1..] == [Resumed];
    assert After(merge, b, [Resumed]) == c && Legal(merge, b, [Resumed]);
    assert After(merge, a, [Resumed, Resumed]) == c && Legal(merge, a, [Resumed, Resumed]);
  }

  // ---------------------------------------------------------------- overlapping polls

  /** Two polls that overlap can both adopt one id: the second to publish becomes the owner, and both tasks stay. */
  lemma OverlappingPollsAdoptTwice(merge: Merge, s: State, c: Commit, gid: Gid, other: Id, task: Task)
    requires Inv(s) && s.place == Publishing(c) && c.id !in s.world.registry.tasks && gid in c.task.gids
    requires other != c.id && gid in task.gids && Enabled(s, OtherPublishes(other, task))
    ensures var t := Resume(merge, Step(merge, s, OtherPublishes(other, task)));
            && {c.id, other} <= t.world.registry.tasks.Keys
            && gid in t.world.registry.tasks[c.id].gids && gid in t.world.registry.tasks[other].gids
            && Owner(t.world.registry, gid) == Some(c.id)
  {
    SetTwice(s.world.registry, other, task, c.id, c.task, gid);
    PublishesTwice(merge, s, c, other, task);
  }

  lemma PublishesTwice(merge: Merge, s: State, c: Commit, other: Id, task: Task)
    requires s.place == Publishing(c)
    ensures Resume(merge, Step(merge, s, OtherPublishes(other, task))).world.registry
            == AfterSet(AfterSet(s.world.registry, other, task), c.id, c.task)
  {
  }

  // ---------------------------------------------------------------- disposal and deletion

  lemma DisposalStays(merge: Merge, s: State, e: Event)
    requires s.world.disposed
    ensures Step(merge, s, e).world.disposed
  {
  }

  /** Once the Activity runtime is disposed it stays so, whatever the poll and the others do. */
  lemma {:induction false} DisposedForGood(merge: Merge, s: State, es: seq<Event>)
    requires s.world.disposed || Disposed in es
    ensures After(merge, s, es).world.disposed
    decreases |es|
  {
    if es != [] {
      if s.world.disposed { DisposalStays(merge, s, es[0]); }
      DisposedForGood(merge, Step(merge, s, es[0]), es[1..]);
    }
  }

  /** A deletion takes the task out of memory and its row off the disk, and leaves every other task and row. */
  lemma DeletedIsGone(merge: Merge, s: State, id: Id, other: Id)
    requires Inv(s)
    ensures var before, after := s.world, Step(merge, s, Deleted(id)).world;
            && id !in after.registry.tasks && id !in after.durable
            && (other != id ==> (other in after.registry.tasks <==> other in before.registry.tasks)
                                && (other in after.durable <==> other in before.durable))
            && (other != id && other in before.registry.tasks ==>
                  after.registry.tasks[other] == before.registry.tasks[other])
            && (other != id && other in before.durable ==> after.durable[other] == before.durable[other])
            && after.occurrences == before.occurrences
  {
  }
}
