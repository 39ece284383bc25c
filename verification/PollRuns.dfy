/** Three runs from the start in which a promise of the polling loop fails. */
module PollRuns {
  import opened Options
  import opened TaskRegistry
  import opened PollMachine
  import opened PollSteps

  /** An engine whose rows say everything. */
  const LATEST: Merge := (task: Task, polled: Task) => (polled.status, polled.detail)

  const TASK := Task(0, ["gid"], Running(0), 0)

  function RowWith(status: Status): Row {
    Row("gid", status, 0, false, false, Declined, 2, 5, true, true)
  }

  lemma {:induction false} Snoc(s: State, es: seq<Event>, e: Event)
    requires Legal(LATEST, s, es) && Enabled(After(LATEST, s, es), e)
    ensures Legal(LATEST, s, es + [e]) && After(LATEST, s, es + [e]) == Step(LATEST, After(LATEST, s, es), e)
    decreases |es|
  {
    if es == [] {
      assert [e][1..] == [] && es + [e] == [e];
    } else {
      assert (es + [e])[1..] == es[1..] + [e];
      Snoc(Step(LATEST, s, es[0]), es[1..], e);
    }
  }

  /** `s` is reached from the start by `es`. */
  ghost predicate Reached(es: seq<Event>, s: State) {
    Legal(LATEST, INITIAL, es) && After(LATEST, INITIAL, es) == s
  }

  lemma Then(es: seq<Event>, s: State, e: Event)
    requires Reached(es, s) && Enabled(s, e)
    ensures Reached(es + [e], Step(LATEST, s, e))
  {
    Snoc(INITIAL, es, e);
  }

  lemma ThenTwo(es: seq<Event>, s: State, e: Event, f: Event)
    requires Reached(es, s) && Enabled(s, e) && Enabled(Step(LATEST, s, e), f)
    ensures Reached(es + [e, f], Step(LATEST, Step(LATEST, s, e), f))
  {
    Then(es, s, e);
    Then(es + [e], Step(LATEST, s, e), f);
    assert es + [e] + [f] == es + [e, f];
  }

  /** Four events, through the states `a`, `b` and `c` to `t`. */
  lemma ThenFour(es: seq<Event>, s: State, e: Event, a: State, f: Event, b: State, g: Event, c: State, h: Event,
                 t: State)
    requires Reached(es, s) && Enabled(s, e) && a == Step(LATEST, s, e) && Enabled(a, f) && b == Step(LATEST, a, f)
    requires Enabled(b, g) && c == Step(LATEST, b, g) && Enabled(c, h) && t == Step(LATEST, c, h)
    ensures Reached(es + [e, f, g, h], t)
  {
    ThenTwo(es, s, e, f);
    ThenTwo(es + [e, f], b, g, h);
    assert es + [e, f] + [g, h] == es + [e, f, g, h];
  }

  // ---------------------------------------------------------------- a task, and a poll that has observed its row

  /** The state in which task 1 is on disk and in memory, and a poll awaits `observe` for its row. */
  function Known(status: Status): State {
    var registry := AfterSet(EMPTY, 1, TASK);
    State(World(registry, map[1 := Running(0)], {}, false), [], false, Observing(RowWith(status)), 0,
          History({(1, Running(0))}, {}, {}))
  }

  function KnownRun(status: Status): seq<Event> {
    [OtherWrites(1, Running(0), false), OtherPublishes(1, TASK), StartPoll(true, [RowWith(status)]), Resumed]
  }

  lemma KnownFacts(status: Status)
    ensures Valid(Known(status).world.registry) && Known(status).world.registry.tasks == map[1 := TASK]
    ensures Owner(Known(status).world.registry, "gid") == Some(1) && !IsRetired(Known(status).world.registry, "gid")
  {
    SetKeeps(EMPTY, 1, TASK);
    assert "gid" in TASK.gids;
  }

  lemma KnownIsReached(status: Status)
    ensures Reached([] + KnownRun(status), Known(status))
  {
    var written := INITIAL.(world := World(EMPTY, map[1 := Running(0)], {}, false),
                            history := History({(1, Running(0))}, {}, {}));
    var published := written.(world := written.world.(registry := AfterSet(EMPTY, 1, TASK)));
    var atRow := published.(rows := [RowWith(status)], dirty := false, place := AtRow);
    KnownFacts(status);
    assert written == Step(LATEST, INITIAL, OtherWrites(1, Running(0), false));
    assert published == Step(LATEST, written, OtherPublishes(1, TASK));
    Observes(atRow, RowWith(status));
    assert Resume(LATEST, atRow) == Known(status);
    ThenFour([], INITIAL, OtherWrites(1, Running(0), false), written, OtherPublishes(1, TASK), published,
             StartPoll(true, [RowWith(status)]), atRow, Resumed, Known(status));
  }

  lemma Observes(s: State, row: Row)
    requires s.place == AtRow && s.rows == [row]
    requires !row.segment && !row.pendingMagnet && !IsRetired(s.world.registry, row.gid)
    ensures Resume(LATEST, s) == s.(rows := [], place := Observing(row))
  {
    assert s.rows[1..] == [];
  }

  // ---------------------------------------------------------------- a save reverts a row

  /** The completion of task 1 is published, and then a save writes what it saw before. */
  lemma SaveRevertsRowRun()
    ensures var es := [] + KnownRun(Completed) + [Resumed, Resumed] + [Resumed, Resumed] + [Saved(1, Running(0))];
            && Legal(LATEST, INITIAL, es)
            && var s := After(LATEST, INITIAL, es);
               1 in s.world.registry.tasks && s.world.registry.tasks[1].status == Completed
                 && OnDisk(s.world, 1, Running(0))
  {
    KnownIsReached(Completed);
    KnownFacts(Completed);
    CompletionRun([] + KnownRun(Completed), Known(Completed));
  }

  lemma CompletionRun(es: seq<Event>, s: State)
    requires Reached(es, s) && s.place == Observing(RowWith(Completed)) && !s.world.disposed && MintsFresh(s)
    requires Valid(s.world.registry) && s.world.registry.tasks == map[1 := TASK]
    requires Owner(s.world.registry, "gid") == Some(1)
    ensures var fs := es + [Resumed, Resumed] + [Resumed, Resumed] + [Saved(1, Running(0))];
            && Legal(LATEST, INITIAL, fs)
            && var t := After(LATEST, INITIAL, fs);
               1 in t.world.registry.tasks && t.world.registry.tasks[1].status == Completed
                 && OnDisk(t.world, 1, Running(0))
  {
    var merged := TASK.(identity := 5, status := Completed);
    var c := Commit(1, merged, TaskRowAndOccurrence, true, Unchanged, MustDeliver, true);
    var waiting := Resume(LATEST, s);
    assert waiting.place == Waiting(1, TASK, merged, RowWith(Completed)) && waiting.world == s.world;
    var writing := Resume(LATEST, waiting);
    assert writing.place == Writing(c) && writing.world == s.world;
    ThenTwo(es, s, Resumed, Resumed);
    CommitRun(es + [Resumed, Resumed], writing, c);
  }

  lemma CommitRun(es: seq<Event>, s: State, c: Commit)
    requires Reached(es, s) && s.place == Writing(c) && c.writes && Valid(s.world.registry)
    ensures var fs := es + [Resumed, Resumed] + [Saved(c.id, Running(0))];
            && Legal(LATEST, INITIAL, fs)
            && var t := After(LATEST, INITIAL, fs);
               && c.id in t.world.registry.tasks && t.world.registry.tasks[c.id].status == c.task.status
               && OnDisk(t.world, c.id, Running(0))
  {
    CommitSteps(s, c);
    ThenTwo(es, s, Resumed, Resumed);
    Then(es + [Resumed, Resumed], Resume(LATEST, Resume(LATEST, s)), Saved(c.id, Running(0)));
  }

  /** The two halves of a commit. */
  lemma CommitSteps(s: State, c: Commit)
    requires s.place == Writing(c) && c.writes && Valid(s.world.registry)
    ensures Enabled(s, Resumed) && Resume(LATEST, s).place == Publishing(c)
    ensures var t := Resume(LATEST, Resume(LATEST, s));
            t.world.registry == AfterSet(s.world.registry, c.id, c.task)
              && t.world.registry.tasks == s.world.registry.tasks[c.id := c.task]
  {
    SetKeeps(s.world.registry, c.id, c.task);
  }

  // ---------------------------------------------------------------- adoptions

  /** A row whose id has no owner goes on to write a new task. */
  lemma AdoptionStarts(s: State, row: Row, c: Commit)
    requires s.place == Observing(row) && row.cleanup == Declined && row.writes && !s.world.disposed
    requires Owner(s.world.registry, row.gid) == None
    requires c == Commit(row.newId, Snapshot(row), TaskRow, true, Unchanged, NoOccurrence, row.dispatches)
    ensures Resume(LATEST, s).place == Writing(c) && Resume(LATEST, s).world == s.world
  {
  }

  /** Task 1 is removed during `observe`, its id is retired, and task 2 is minted for it. */
  lemma RemovedMeanwhileRun()
    ensures var es := [] + KnownRun(Running(0)) + [Deleted(1)];
            && Legal(LATEST, INITIAL, es) && IsRetired(After(LATEST, INITIAL, es).world.registry, "gid")
            && var fs := es + [Resumed] + [Resumed, Resumed];
               && Legal(LATEST, INITIAL, fs)
               && Owner(After(LATEST, INITIAL, fs).world.registry, "gid") == Some(2)
  {
    KnownIsReached(Running(0));
    KnownFacts(Running(0));
    KnownIsIndexed();
    RemovalRun([] + KnownRun(Running(0)), Known(Running(0)));
  }

  lemma KnownIsIndexed()
    ensures IndexedOf(AfterSet(EMPTY, 1, TASK), 1) == ["gid"]
  {
  }

  lemma RemovalRun(es: seq<Event>, s: State)
    requires Reached(es, s) && s.place == Observing(RowWith(Running(0))) && !s.world.disposed && MintsFresh(s)
    requires Valid(s.world.registry) && IndexedOf(s.world.registry, 1) == ["gid"]
    ensures var fs := es + [Deleted(1)];
            && Legal(LATEST, INITIAL, fs) && IsRetired(After(LATEST, INITIAL, fs).world.registry, "gid")
            && var gs := fs + [Resumed] + [Resumed, Resumed];
               && Legal(LATEST, INITIAL, gs)
               && Owner(After(LATEST, INITIAL, gs).world.registry, "gid") == Some(2)
  {
    var removed := Step(LATEST, s, Deleted(1));
    Then(es, s, Deleted(1));
    RemovedAreShielded(s.world.registry, 1, "gid");
    RemoveKeeps(s.world.registry, 1);
    AdoptionRun(es + [Deleted(1)], removed, RowWith(Running(0)));
  }

  lemma AdoptionRun(es: seq<Event>, s: State, row: Row)
    requires Reached(es, s) && Valid(s.world.registry) && !s.world.disposed && MintsFresh(s)
    requires s.place == Observing(row) && row.cleanup == Declined && row.writes
    requires Owner(s.world.registry, row.gid) == None
    ensures var fs := es + [Resumed] + [Resumed, Resumed];
            Legal(LATEST, INITIAL, fs) && Owner(After(LATEST, INITIAL, fs).world.registry, row.gid) == Some(row.newId)
  {
    var c := Commit(row.newId, Snapshot(row), TaskRow, true, Unchanged, NoOccurrence, row.dispatches);
    AdoptionStarts(s, row, c);
    Then(es, s, Resumed);
    CommitSteps(Resume(LATEST, s), c);
    ThenTwo(es + [Resumed], Resume(LATEST, s), Resumed, Resumed);
    SetKeeps(s.world.registry, row.newId, Snapshot(row));
    assert row.gid in Snapshot(row).gids;
  }

  /** While a poll writes its task 2 for an unknown id, another poll adopts the same id as task 3. */
  lemma OverlappingPollsRun()
    ensures var task := Task(9, ["gid"], Running(0), 0);
            var es := [] + [StartPoll(true, [RowWith(Running(0))]), Resumed] + [Resumed]
                      + [OtherWrites(3, Running(0), false), OtherPublishes(3, task)] + [Resumed, Resumed];
            && Legal(LATEST, INITIAL, es)
            && var tasks := After(LATEST, INITIAL, es).world.registry.tasks;
               2 in tasks && 3 in tasks && tasks[2].gids == tasks[3].gids == ["gid"]
  {
    var row := RowWith(Running(0));
    var atRow := INITIAL.(rows := [row], place := AtRow);
    assert atRow == Step(LATEST, INITIAL, StartPoll(true, [row]));
    Observes(atRow, row);
    ThenTwo([], INITIAL, StartPoll(true, [row]), Resumed);
    OverlapRun([] + [StartPoll(true, [row]), Resumed], atRow.(rows := [], place := Observing(row)), row);
  }

  lemma OverlapRun(es: seq<Event>, s: State, row: Row)
    requires Reached(es, s) && s.place == Observing(row) && s.world == INITIAL.world && s.history == INITIAL.history
    requires row == RowWith(Running(0))
    ensures var task := Task(9, ["gid"], Running(0), 0);
            var fs := es + [Resumed] + [OtherWrites(3, Running(0), false), OtherPublishes(3, task)]
              + [Resumed, Resumed];
            && Legal(LATEST, INITIAL, fs)
            && var tasks := After(LATEST, INITIAL, fs).world.registry.tasks;
               2 in tasks && 3 in tasks && tasks[2].gids == tasks[3].gids == ["gid"]
  {
    var task := Task(9, ["gid"], Running(0), 0);
    var c := Commit(2, Snapshot(row), TaskRow, true, Unchanged, NoOccurrence, true);
    AdoptionStarts(s, row, c);
    var writing := Resume(LATEST, s);
    Then(es, s, Resumed);
    OtherAdoption(writing, c, task);
    var other := Step(LATEST, Step(LATEST, writing, OtherWrites(3, Running(0), false)), OtherPublishes(3, task));
    ThenTwo(es + [Resumed], writing, OtherWrites(3, Running(0), false), OtherPublishes(3, task));
    SetKeeps(EMPTY, 3, task);
    CommitSteps(other, c);
    ThenTwo(es + [Resumed] + [OtherWrites(3, Running(0), false), OtherPublishes(3, task)], other, Resumed, Resumed);
  }

  /** Another poll writes and publishes a task of its own. */
  lemma OtherAdoption(s: State, c: Commit, task: Task)
    requires s.place == Writing(c) && c.id == 2 && s.world == INITIAL.world && task.status == Running(0)
    ensures Enabled(s, OtherWrites(3, Running(0), false))
    ensures var written := Step(LATEST, s, OtherWrites(3, Running(0), false));
            && Enabled(written, OtherPublishes(3, task))
            && var t := Step(LATEST, written, OtherPublishes(3, task));
               t.place == Writing(c) && t.world.registry == AfterSet(EMPTY, 3, task)
  {
  }
}
