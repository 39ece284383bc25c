/**
 * What one row of `handlePolledTasks` (src/server/index.ts:992-1092) comes to when nothing else happens meanwhile: what
 * is decided, and its net effect. PollSteps takes the same row apart at its awaits.
 */
module PollMachine {
  import opened Options
  import opened TaskRegistry

  /** What `completedEngineTaskCleanup.observe` did with the row. */
  datatype Cleanup = Declined | Deferred | Finished | Adopted

  /** A polled engine row, and how its environment behaves while it is handled. */
  datatype Row = Row(
    gid: Gid,
    status: Status,
    detail: nat,
    segment: bool,        // belongs to a media task
    pendingMagnet: bool,  // metadata of a magnet is still pending
    cleanup: Cleanup,
    newId: Id,            // what `newTaskId` returns
    identity: nat,        // the identity of the object that is made for the row
    writes: bool,         // the durable write succeeds
    dispatches: bool)     // delivering the occurrence succeeds

  /** `disposed` is the Activity runtime's `stopped`. */
  datatype World = World(registry: Registry, durable: map<Id, Status>, occurrences: set<(Id, Status)>, disposed: bool)

  /** How the engine's row changes a task: `mergeEngineTask` never touches its id or engine ids. */
  type Merge = (Task, Task) -> (Status, nat)

  function Snapshot(row: Row): Task {
    Task(row.identity, [row.gid], row.status, row.detail)
  }

  function Merged(merge: Merge, task: Task, row: Row): Task {
    var (status, detail) := merge(task, Snapshot(row));
    task.(identity := row.identity, status := status, detail := detail)
  }

  /** `hasEngineTaskDelta`. */
  predicate HasDelta(before: Task, after: Task) {
    before.status != after.status || before.detail != after.detail
  }

  /** `Threw` ends the whole poll. */
  datatype Outcome = Unchanged | Dirty | Threw

  /** What is written, in one transaction, before a task is put into memory. */
  datatype Write = NoWrite | TaskRow | TaskRowAndOccurrence

  /** What handling a row comes to: nothing, or a write followed by `set`. */
  datatype Decision = Leave(outcome: Outcome) | Put(id: Id, task: Task, write: Write, outcome: Outcome)

  /** A removed task is silently not written. */
  function Written(w: World, id: Id, status: Status, write: Write): World {
    if write == NoWrite || status == Removed then w
    else w.(durable := w.durable[id := status],
            occurrences := if write == TaskRowAndOccurrence then w.occurrences + {(id, status)} else w.occurrences)
  }

  function Apply(w: World, d: Decision): World {
    match d
    case Leave(_) => w
    case Put(id, task, write, _) =>
      var written := Written(w, id, task.status, write);
      written.(registry := AfterSet(w.registry, id, task))
  }

  // ---------------------------------------------------------------- decisions

  /** `parentTaskCreated`, which returns at once when the runtime is disposed, and then `set`. */
  function Adopt(w: World, row: Row): Decision {
    if w.disposed then Put(row.newId, Snapshot(row), NoWrite, Dirty)
    else if !row.writes then Leave(Unchanged)
    else Put(row.newId, Snapshot(row), TaskRow, Dirty)
  }

  /** `commitPolledTerminalTransition` for a transition that is terminal: write, publish, dispatch. */
  function CommitTerminal(w: World, id: Id, merged: Task, row: Row): Decision {
    if w.disposed then Leave(Threw)
    else if !row.writes then Leave(Unchanged)
    else Put(id, merged, TaskRowAndOccurrence, if row.dispatches then Dirty else Threw)
  }

  function Update(merge: Merge, w: World, id: Id, existing: Task, row: Row): Decision {
    var merged := Merged(merge, existing, row);
    if !HasDelta(existing, merged) then Leave(Unchanged)
    else if merged.status != existing.status && Terminal(merged.status) then CommitTerminal(w, id, merged, row)
    else Put(id, merged, NoWrite, Dirty)
  }

  /** The completed copy that the cleanup makes of a task. */
  function Finish(existing: Task, row: Row): Task {
    existing.(identity := row.identity, status := Completed)
  }

  /** The cleanup of a finished direct download, which commits before it publishes and defers on any error. */
  function CleanUp(w: World, row: Row): Decision {
    match (row.cleanup, Owner(w.registry, row.gid))
    case (Finished, Some(id)) =>
      var existing := w.registry.tasks[id];
      if w.disposed || !row.writes || Terminal(existing.status) then Leave(Dirty)
      else Put(id, Finish(existing, row), TaskRowAndOccurrence, Dirty)
    case (Adopted, None) =>
      var task := Snapshot(row).(status := Completed);
      if w.disposed then Put(row.newId, task, NoWrite, Dirty)
      else if row.writes then Put(row.newId, task, TaskRowAndOccurrence, Dirty)
      else Leave(Dirty)
    case _ => Leave(Dirty)
  }

  function Decide(merge: Merge, w: World, row: Row): Decision {
    if row.segment || row.pendingMagnet || IsRetired(w.registry, row.gid) then Leave(Unchanged)
    else if row.cleanup != Declined then CleanUp(w, row)
    else match Owner(w.registry, row.gid)
      case Some(id) => Update(merge, w, id, w.registry.tasks[id], row)
      case None => Adopt(w, row)
  }

  datatype Poll = Poll(world: World, dirty: bool, threw: bool)

  function HandleRows(merge: Merge, w: World, rows: seq<Row>, dirty: bool): Poll
    decreases |rows|
  {
    if rows == [] then Poll(w, dirty, false)
    else
      var d := Decide(merge, w, rows[0]);
      if d.outcome == Threw then Poll(Apply(w, d), dirty, true)
      else HandleRows(merge, Apply(w, d), rows[1..], dirty || d.outcome == Dirty)
  }

  // ---------------------------------------------------------------- one row

  /** A put goes to the owner of the row's engine id, or mints a task for an engine id that has none. */
  lemma PutGoesToOwner(merge: Merge, w: World, row: Row)
    requires Decide(merge, w, row).Put?
    ensures var d := Decide(merge, w, row);
            match Owner(w.registry, row.gid)
            case Some(id) => d.id == id && d.task.gids == w.registry.tasks[id].gids
            case None => d.id == row.newId && d.task.gids == [row.gid]
  {
  }

  /** An existing task turns Completed or Error in memory only with its row and its occurrence on disk. */
  lemma TerminalIsDurable(merge: Merge, w: World, row: Row, id: Id)
    requires Valid(w.registry) && id in w.registry.tasks && row.newId !in w.registry.tasks
    ensures var t := Apply(w, Decide(merge, w, row));
            && id in t.registry.tasks
            && (Terminal(t.registry.tasks[id].status) && t.registry.tasks[id].status != w.registry.tasks[id].status ==>
                  id in t.durable && t.durable[id] == t.registry.tasks[id].status
                    && (id, t.durable[id]) in t.occurrences)
  {
    var d := Decide(merge, w, row);
    if d.Put? {
      PutGoesToOwner(merge, w, row);
      SetKeeps(w.registry, d.id, d.task);
      TerminalWrites(merge, w, row);
    }
  }

  lemma TerminalWrites(merge: Merge, w: World, row: Row)
    requires Decide(merge, w, row).Put?
    ensures var d := Decide(merge, w, row);
            Owner(w.registry, row.gid).Some? && Terminal(d.task.status)
              && d.task.status != w.registry.tasks[d.id].status
            ==> d.write == TaskRowAndOccurrence
  {
  }

  /**
   * A task enters memory with its row on disk, unless the runtime is disposed or the engine reports it as removed:
   * then, and only then, it is in memory alone.
   */
  lemma EntryIsDurableIff(merge: Merge, w: World, row: Row)
    requires Valid(w.registry) && row.newId !in w.registry.tasks && row.newId !in w.durable
    requires row.newId in Apply(w, Decide(merge, w, row)).registry.tasks
    ensures var t := Apply(w, Decide(merge, w, row));
            row.newId in t.durable && t.durable[row.newId] == t.registry.tasks[row.newId].status
            <==> !w.disposed && (row.status != Removed || row.cleanup == Adopted)
  {
    var d := Decide(merge, w, row);
    PutGoesToOwner(merge, w, row);
    SetKeeps(w.registry, d.id, d.task);
    EntryWrites(merge, w, row);
  }

  lemma EntryWrites(merge: Merge, w: World, row: Row)
    requires Decide(merge, w, row).Put? && Owner(w.registry, row.gid).None?
    ensures var d := Decide(merge, w, row);
            && (d.write == NoWrite <==> w.disposed)
            && d.task.status == (if row.cleanup == Adopted then Completed else row.status)
            && (row.cleanup == Adopted || row.cleanup == Declined)
  {
  }

  /** Rows of retired engine ids change nothing, and never mint a task. */
  lemma RetiredIsIgnored(merge: Merge, w: World, row: Row)
    requires IsRetired(w.registry, row.gid)
    ensures Apply(w, Decide(merge, w, row)) == w && Decide(merge, w, row).outcome == Unchanged
  {
  }

  /** A failed write leaves memory and disk as they were, except for updates that are not terminal and need no write. */
  lemma FailedWriteLeavesAll(merge: Merge, w: World, row: Row)
    requires !row.writes && !w.disposed
    ensures Apply(w, Decide(merge, w, row)) == w
            || (exists id :: Owner(w.registry, row.gid) == Some(id)
                  && Apply(w, Decide(merge, w, row))
                     == Apply(w, Put(id, Merged(merge, w.registry.tasks[id], row), NoWrite, Dirty))
                  && !(Terminal(Merged(merge, w.registry.tasks[id], row).status)
                       && Merged(merge, w.registry.tasks[id], row).status != w.registry.tasks[id].status))
  {
    var d := Decide(merge, w, row);
    if d.Put? {
      PutGoesToOwner(merge, w, row);
      assert d == Put(d.id, Merged(merge, w.registry.tasks[d.id], row), NoWrite, Dirty);
    }
  }

  /** And the next poll of the same row commits what the failed one could not. */
  lemma RetryCommits(merge: Merge, w: World, row: Row, id: Id)
    requires Valid(w.registry) && !w.disposed && !row.writes && row.cleanup == Declined
    requires !row.segment && !row.pendingMagnet && !IsRetired(w.registry, row.gid)
    requires Owner(w.registry, row.gid) == Some(id)
    requires Terminal(Merged(merge, w.registry.tasks[id], row).status)
    requires Merged(merge, w.registry.tasks[id], row).status != w.registry.tasks[id].status
    ensures Apply(w, Decide(merge, w, row)) == w
    ensures var t := Apply(w, Decide(merge, Apply(w, Decide(merge, w, row)), row.(writes := true)));
            && id in t.registry.tasks && t.registry.tasks[id] == Merged(merge, w.registry.tasks[id], row)
            && id in t.durable && t.durable[id] == t.registry.tasks[id].status
  {
    var again, merged := row.(writes := true), Merged(merge, w.registry.tasks[id], row);
    assert Snapshot(row) == Snapshot(again);
    assert Decide(merge, w, again) == Put(id, merged, TaskRowAndOccurrence, if row.dispatches then Dirty else Threw);
    SetKeeps(w.registry, id, merged);
  }

  /** The same for an adoption that could not be written: the next poll of the row adopts the task, with its row. */
  lemma RetryAdopts(merge: Merge, w: World, row: Row)
    requires Valid(w.registry) && !w.disposed && !row.writes && row.cleanup in {Declined, Adopted}
    requires !row.segment && !row.pendingMagnet && !IsRetired(w.registry, row.gid) && Owner(w.registry, row.gid) == None
    requires row.status != Removed || row.cleanup == Adopted
    ensures Apply(w, Decide(merge, w, row)) == w
    ensures var t := Apply(w, Decide(merge, Apply(w, Decide(merge, w, row)), row.(writes := true)));
            var task := if row.cleanup == Adopted then Snapshot(row).(status := Completed) else Snapshot(row);
            && row.newId in t.registry.tasks && t.registry.tasks[row.newId] == task
            && row.newId in t.durable && t.durable[row.newId] == task.status
              && Owner(t.registry, row.gid) == Some(row.newId)
            && (row.cleanup == Adopted ==> (row.newId, Completed) in t.occurrences)
  {
    var again := row.(writes := true);
    var task := if row.cleanup == Adopted then Snapshot(row).(status := Completed) else Snapshot(row);
    assert Snapshot(row) == Snapshot(again) && row.gid in task.gids;
    assert Decide(merge, w, again)
        == Put(row.newId, task, if row.cleanup == Adopted then TaskRowAndOccurrence else TaskRow, Dirty);
    SetKeeps(w.registry, row.newId, task);
  }

  /** While an engine id has an owner its rows mint nothing. */
  lemma OwnedMintsNothing(merge: Merge, w: World, row: Row)
    requires Valid(w.registry) && Owner(w.registry, row.gid).Some?
    ensures Apply(w, Decide(merge, w, row)).registry.tasks.Keys == w.registry.tasks.Keys
  {
    var d := Decide(merge, w, row);
    if d.Put? {
      PutGoesToOwner(merge, w, row);
      SetKeeps(w.registry, d.id, d.task);
    }
  }

  /** Two rows of one engine id, handled one after the other, give one task. */
  lemma AdoptedOnce(merge: Merge, w: World, row: Row, again: Row)
    requires Valid(w.registry) && again.gid == row.gid && Owner(w.registry, row.gid).None? && Decide(merge, w, row).Put?
    ensures var t := Apply(w, Decide(merge, w, row));
            && Owner(t.registry, row.gid) == Some(row.newId)
            && Apply(t, Decide(merge, t, again)).registry.tasks.Keys == w.registry.tasks.Keys + {row.newId}
  {
    var d := Decide(merge, w, row);
    PutGoesToOwner(merge, w, row);
    SetKeeps(w.registry, d.id, d.task);
    assert row.gid in d.task.gids;
    OwnedMintsNothing(merge, Apply(w, d), again);
  }

  /** A poll publishes for exactly the rows that change what is in memory; without a delta nothing is stored. */
  lemma DirtyIffChanged(merge: Merge, w: World, row: Row)
    requires Valid(w.registry) && row.newId !in w.registry.tasks && row.cleanup == Declined
    requires Decide(merge, w, row).outcome != Threw
    ensures Decide(merge, w, row).outcome == Dirty
            <==> Apply(w, Decide(merge, w, row)).registry.tasks != w.registry.tasks
  {
    var d := Decide(merge, w, row);
    if d.Put? {
      PutGoesToOwner(merge, w, row);
      SetKeeps(w.registry, d.id, d.task);
      PutChanges(merge, w, row);
      assert w.registry.tasks[d.id := d.task][d.id] == d.task;
    }
  }

  lemma PutChanges(merge: Merge, w: World, row: Row)
    requires Decide(merge, w, row).Put? && row.newId !in w.registry.tasks && row.cleanup == Declined
    ensures var d := Decide(merge, w, row); d.id !in w.registry.tasks || w.registry.tasks[d.id] != d.task
    ensures Decide(merge, w, row).outcome != Unchanged
  {
  }

  // ---------------------------------------------------------------- what a poll leaves in memory

  /** The loop looks at the row's owner, which is `id`, and the cleanup has no part in it. */
  predicate Reads(w: World, row: Row, id: Id) {
    && !row.segment && !row.pendingMagnet && row.cleanup == Declined
    && !IsRetired(w.registry, row.gid) && Owner(w.registry, row.gid) == Some(id)
  }

  /** Task `id` turns Completed or Error with the row, and that has to be written first. */
  predicate TurnsFinal(merge: Merge, w: World, row: Row, id: Id)
    requires id in w.registry.tasks
  {
    var status := merge(w.registry.tasks[id], Task(row.identity, [row.gid], row.status, row.detail)).0;
    Terminal(status) && status != w.registry.tasks[id].status
  }

  /**
   * Memory shows what the engine's row makes of task `id`, status and detail alike, unless that is a final status that
   * could not be written: then it shows the old task.
   */
  predicate Shows(merge: Merge, w: World, row: Row, id: Id, tasks: map<Id, Task>)
    requires id in w.registry.tasks
  {
    var existing := w.registry.tasks[id];
    var (status, detail) := merge(existing, Task(row.identity, [row.gid], row.status, row.detail));
    && id in tasks
    && if TurnsFinal(merge, w, row, id) && (w.disposed || !row.writes) then tasks[id] == existing
       else tasks[id].status == status && tasks[id].detail == detail && tasks[id].gids == existing.gids
  }

  /** One row: what it stores, whether it counts as a change, and whether it ends the poll. */
  lemma RowShows(merge: Merge, w: World, row: Row, id: Id)
    requires Valid(w.registry) && Reads(w, row, id)
    ensures var poll := HandleRows(merge, w, [row], false);
            var existing := w.registry.tasks[id];
            var (status, detail) := merge(existing, Task(row.identity, [row.gid], row.status, row.detail));
            && Shows(merge, w, row, id, poll.world.registry.tasks)
            && poll.world.registry.tasks - {id} == w.registry.tasks - {id} && Valid(poll.world.registry)
            && (if TurnsFinal(merge, w, row, id)
                then poll.threw == (w.disposed || (row.writes && !row.dispatches))
                     && poll.dirty == (!w.disposed && row.writes && row.dispatches)
                else !poll.threw && (poll.dirty <==> status != existing.status || detail != existing.detail))
  {
    var existing := w.registry.tasks[id];
    var (status, detail) := merge(existing, Task(row.identity, [row.gid], row.status, row.detail));
    var task := existing.(identity := row.identity, status := status, detail := detail);
    DecidesFor(merge, w, row, id, task);
    OneRow(merge, w, row, Decide(merge, w, row));
    if Decide(merge, w, row).Put? { PutShows(merge, w, Decide(merge, w, row), id, task); }
  }

  /** The decision, by cases on what the merge gives. */
  lemma DecidesFor(merge: Merge, w: World, row: Row, id: Id, task: Task)
    requires Valid(w.registry) && Reads(w, row, id)
    requires var existing := w.registry.tasks[id];
             var (status, detail) := merge(existing, Task(row.identity, [row.gid], row.status, row.detail));
             task == existing.(identity := row.identity, status := status, detail := detail)
    ensures Decide(merge, w, row)
            == if TurnsFinal(merge, w, row, id)
               then if w.disposed then Leave(Threw)
                    else if !row.writes then Leave(Unchanged)
                    else Put(id, task, TaskRowAndOccurrence, if row.dispatches then Dirty else Threw)
               else if task.status == w.registry.tasks[id].status && task.detail == w.registry.tasks[id].detail
               then Leave(Unchanged)
               else Put(id, task, NoWrite, Dirty)
  {
    assert Merged(merge, w.registry.tasks[id], row) == task;
  }

  lemma PutShows(merge: Merge, w: World, d: Decision, id: Id, task: Task)
    requires Valid(w.registry) && d.Put? && d.id == id && d.task == task
    ensures var t := Apply(w, d).registry;
            Valid(t) && t.tasks - {id} == w.registry.tasks - {id} && id in t.tasks && t.tasks[id] == task
  {
    SetKeeps(w.registry, id, task);
  }

  lemma OneRow(merge: Merge, w: World, row: Row, d: Decision)
    requires d == Decide(merge, w, row)
    ensures HandleRows(merge, w, [row], false) == Poll(Apply(w, d), d.outcome == Dirty, d.outcome == Threw)
  {
    assert [row][0] == row && [row][1..] == [];
  }

  /** A row whose id has no owner mints exactly the task it describes, or nothing if that cannot be written. */
  lemma RowMints(merge: Merge, w: World, row: Row)
    requires Valid(w.registry) && row.cleanup in {Declined, Adopted} && !row.segment && !row.pendingMagnet
    requires !IsRetired(w.registry, row.gid) && Owner(w.registry, row.gid) == None
    ensures var poll := HandleRows(merge, w, [row], false);
            var status := if row.cleanup == Adopted then Completed else row.status;
            && !poll.threw && poll.dirty == (w.disposed || row.writes || row.cleanup == Adopted)
            && poll.world.registry.tasks
               == if w.disposed || row.writes
                  then w.registry.tasks[row.newId := Task(row.identity, [row.gid], status, row.detail)]
                  else w.registry.tasks
  {
    var d := Decide(merge, w, row);
    OneRow(merge, w, row, d);
    if d.Put? { PutGoesToOwner(merge, w, row); SetKeeps(w.registry, d.id, d.task); }
  }

  /** A finished direct download becomes its completed self, with its row and its occurrence, or stays as it is. */
  lemma RowFinishes(merge: Merge, w: World, row: Row, id: Id)
    requires Valid(w.registry) && row.cleanup == Finished && !row.segment && !row.pendingMagnet
    requires !IsRetired(w.registry, row.gid) && Owner(w.registry, row.gid) == Some(id)
    ensures var poll, task := HandleRows(merge, w, [row], false), w.registry.tasks[id];
            && !poll.threw && poll.dirty
            && (if w.disposed || !row.writes || Terminal(task.status) then poll.world == w
                else && poll.world.registry.tasks
                        == w.registry.tasks[id := Task(row.identity, task.gids, Completed, task.detail)]
                     && poll.world.durable == w.durable[id := Completed]
                     && poll.world.occurrences == w.occurrences + {(id, Completed)})
  {
    var d := Decide(merge, w, row);
    OneRow(merge, w, row, d);
    if d.Put? { SetKeeps(w.registry, d.id, d.task); }
  }

  /** The polls of a prefix, and of the rest unless something threw. */
  lemma {:induction false} HandleRowsConcat(merge: Merge, w: World, a: seq<Row>, b: seq<Row>, dirty: bool)
    ensures var first := HandleRows(merge, w, a, dirty);
            HandleRows(merge, w, a + b, dirty)
            == if first.threw then first else HandleRows(merge, first.world, b, first.dirty)
    decreases |a|
  {
    if a == [] {
      assert a + b == b;
    } else {
      var d := Decide(merge, w, a[0]);
      assert (a + b)[0] == a[0] && (a + b)[1..] == a[1..] + b;
      if d.outcome != Threw { HandleRowsConcat(merge, Apply(w, d), a[1..], b, dirty || d.outcome == Dirty); }
    }
  }

  /** `rows` are about other tasks than `id`. */
  predicate AboutOthers(rows: seq<Row>, gids: seq<Gid>, id: Id) {
    forall j :: 0 <= j < |rows| ==> rows[j].gid !in gids && rows[j].newId != id
  }

  lemma OtherRowLeaves(merge: Merge, w: World, row: Row, id: Id)
    requires Valid(w.registry) && id in w.registry.tasks && row.gid !in w.registry.tasks[id].gids && row.newId != id
    ensures var t := Apply(w, Decide(merge, w, row)).registry;
            Valid(t) && id in t.tasks && t.tasks[id] == w.registry.tasks[id]
  {
    var d := Decide(merge, w, row);
    if d.Put? {
      PutGoesToOwner(merge, w, row);
      SetKeeps(w.registry, d.id, d.task);
    }
  }

  lemma {:induction false} OtherRowsLeave(merge: Merge, w: World, rows: seq<Row>, dirty: bool, id: Id)
    requires Valid(w.registry) && id in w.registry.tasks && AboutOthers(rows, w.registry.tasks[id].gids, id)
    ensures var tasks := HandleRows(merge, w, rows, dirty).world.registry.tasks;
            id in tasks && tasks[id] == w.registry.tasks[id]
    decreases |rows|
  {
    if rows != [] {
      var d := Decide(merge, w, rows[0]);
      OtherRowLeaves(merge, w, rows[0], id);
      if d.outcome != Threw { OtherRowsLeave(merge, Apply(w, d), rows[1..], dirty || d.outcome == Dirty, id); }
    }
  }

  lemma {:induction false} HandleRowsKeepsValid(merge: Merge, w: World, rows: seq<Row>, dirty: bool)
    requires Valid(w.registry)
    ensures Valid(HandleRows(merge, w, rows, dirty).world.registry)
    ensures dirty ==> HandleRows(merge, w, rows, dirty).dirty
    decreases |rows|
  {
    if rows != [] {
      var d := Decide(merge, w, rows[0]);
      if d.Put? { SetKeeps(w.registry, d.id, d.task); }
      if d.outcome != Threw { HandleRowsKeepsValid(merge, Apply(w, d), rows[1..], dirty || d.outcome == Dirty); }
    }
  }

  /** What precedes row `k` did not throw, the row is that of task `id`, and those that follow are about others. */
  predicate Decides(merge: Merge, w: World, rows: seq<Row>, k: nat, id: Id) {
    && k < |rows| && !HandleRows(merge, w, rows[..k], false).threw
    && var u := HandleRows(merge, w, rows[..k], false).world;
       Reads(u, rows[k], id) && AboutOthers(rows[k + 1..], u.registry.tasks[id].gids, id)
  }

  predicate Differs(before: map<Id, Task>, after: map<Id, Task>, id: Id) {
    id in before && id in after && (before[id].status != after[id].status || before[id].detail != after[id].detail)
  }

  /** At the end of a poll memory shows the last row of every task, and a change in it is not forgotten. */
  lemma PollShows(merge: Merge, w: World, rows: seq<Row>, k: nat, id: Id)
    requires Valid(w.registry) && Decides(merge, w, rows, k, id)
    ensures var u, poll := HandleRows(merge, w, rows[..k], false).world, HandleRows(merge, w, rows, false);
            && Shows(merge, u, rows[k], id, poll.world.registry.tasks)
            && (!poll.threw && Differs(u.registry.tasks, poll.world.registry.tasks, id) ==> poll.dirty)
  {
    var first := HandleRows(merge, w, rows[..k], false);
    var u, row, rest := first.world, rows[k], rows[k + 1..];
    assert rows == rows[..k] + ([row] + rest);
    HandleRowsKeepsValid(merge, w, rows[..k], false);
    HandleRowsConcat(merge, w, rows[..k], [row] + rest, false);
    HandleRowsConcat(merge, u, [row], rest, first.dirty);
    RowShows(merge, u, row, id);
    DirtyOnly(merge, u, row, first.dirty);
    var second := HandleRows(merge, u, [row], first.dirty);
    if !second.threw {
      OtherRowsLeave(merge, second.world, rest, second.dirty, id);
      HandleRowsKeepsValid(merge, second.world, rest, second.dirty);
    }
  }

  lemma DirtyOnly(merge: Merge, w: World, row: Row, dirty: bool)
    ensures var a, b := HandleRows(merge, w, [row], dirty), HandleRows(merge, w, [row], false);
            a.world == b.world && a.threw == b.threw && (!a.threw ==> a.dirty == (dirty || b.dirty))
  {
    assert [row][0] == row && [row][1..] == [];
  }

  // ---------------------------------------------------------------- the two exceptions

  /** A disposed runtime lets an unknown engine task into memory without a row. */
  lemma DisposedEntersUnwritten(merge: Merge)
    ensures var w := World(EMPTY, map[], {}, true);
            var row := Row("gid", Running(0), 0, false, false, Declined, 7, 0, true, true);
            var t := Apply(w, Decide(merge, w, row));
            7 in t.registry.tasks && 7 !in t.durable && Decide(merge, w, row).outcome == Dirty
  {
    SetKeeps(EMPTY, 7, Task(0, ["gid"], Running(0), 0));
  }

  /** So does any runtime when the engine reports the unknown task as removed. */
  lemma RemovedEntersUnwritten(merge: Merge)
    ensures var w := World(EMPTY, map[], {}, false);
            var row := Row("gid", Removed, 0, false, false, Declined, 7, 0, true, true);
            var t := Apply(w, Decide(merge, w, row));
            7 in t.registry.tasks && 7 !in t.durable && Decide(merge, w, row).outcome == Dirty
  {
    SetKeeps(EMPTY, 7, Task(0, ["gid"], Removed, 0));
  }
}
