/**
 * `handlePolledTasks` (src/server/index.ts:992-1092) and the commit it uses (src/core/task/actions/shared.ts:318-349),
 * taken apart at their awaits. Between any two segments the runtime may be disposed, and other operations, among them
 * polls for single notifications, may write, publish and delete tasks; they keep the same order, and neither write nor
 * delete the task whose lock the poll holds. A save of the whole session takes no lock, and may write over any row what
 * it saw in memory before.
 */
module PollSteps {
  import opened Options
  import opened TaskRegistry
  import opened PollMachine

  /** What is done with the occurrence after publication, and whether losing it ends the poll. */
  datatype Delivery = NoOccurrence | MustDeliver | MayLose

  /** A write that has been asked for, and the task that is published once it has succeeded. */
  datatype Commit = Commit(id: Id, task: Task, write: Write, writes: bool, onFailure: Outcome, delivery: Delivery,
                           delivers: bool)

  /** Where the poll is suspended. */
  datatype Place =
    | AtRow                                                          // at the head of the loop
    | Observing(row: Row)                                            // `observe` has been called
    | Waiting(id: Id, existing: Task, merged: Task, row: Row)        // for the task's mutation lock
    | Updating(id: Id, existing: Task, merged: Task)                 // the commit answers that this is not terminal
    | Writing(c: Commit)
    | Publishing(c: Commit)                                          // the write has succeeded
    | Dispatching(c: Commit)                                         // the task has been published
    | Ended(threw: bool)

  /**
   * `written` are all rows that ever were on disk, and `turned` the existing tasks that were published as Completed or
   * Error. `exempt` are the tasks whose adoption was decided while the runtime was disposed or for a row that the
   * engine reports as removed, until they are published with their row on disk.
   */
  datatype History = History(written: set<(Id, Status)>, turned: set<(Id, Status)>, exempt: set<Id>)

  datatype State = State(world: World, rows: seq<Row>, dirty: bool, place: Place, publications: nat, history: History)

  const INITIAL := State(World(EMPTY, map[], {}, false), [], false, Ended(false), 0, History({}, {}, {}))

  // ---------------------------------------------------------------- the two halves

  predicate OnDisk(w: World, id: Id, status: Status) {
    id in w.durable && w.durable[id] == status
  }

  /** The transaction: memory is as it was. */
  function Store(s: State, id: Id, status: Status, write: Write): State {
    if write == NoWrite || status == Removed then s
    else s.(world := Written(s.world, id, status, write),
            history := s.history.(written := s.history.written + {(id, status)}))
  }

  /** `set`: the disk is as it was. */
  function Publish(s: State, id: Id, task: Task): State {
    var h, tasks := s.history, s.world.registry.tasks;
    var turns := id in tasks && tasks[id].status != task.status && Terminal(task.status);
    s.(world := s.world.(registry := AfterSet(s.world.registry, id, task)),
       history := h.(exempt := if OnDisk(s.world, id, task.status) then h.exempt - {id} else h.exempt,
                     turned := if turns then h.turned + {(id, task.status)} else h.turned))
  }

  // ---------------------------------------------------------------- the segments of a poll

  function NextRow(s: State, outcome: Outcome): State {
    if outcome == Threw then s.(place := Ended(true)) else s.(place := AtRow, dirty := s.dirty || outcome == Dirty)
  }

  /** `taskManager.getById(id) === existing`. */
  predicate IsCurrent(w: World, id: Id, existing: Task) {
    id in w.registry.tasks && w.registry.tasks[id].identity == existing.identity
  }

  function StartUpdate(merge: Merge, s: State, id: Id, existing: Task, row: Row): State {
    var merged := Merged(merge, existing, row);
    if !HasDelta(existing, merged) then NextRow(s, Unchanged)
    else if merged.status == existing.status then NextRow(Publish(s, id, merged), Dirty)
    else if !Terminal(merged.status) then s.(place := Updating(id, existing, merged))
    else if s.world.disposed then NextRow(s, Threw)
    else s.(place := Waiting(id, existing, merged, row))
  }

  function Exempted(s: State, id: Id): State {
    s.(history := s.history.(exempt := s.history.exempt + {id}))
  }

  /** A disposed runtime skips the write. */
  function StartAdoption(s: State, row: Row, task: Task, write: Write, onFailure: Outcome, delivery: Delivery): State {
    var c := Commit(row.newId, task, if s.world.disposed then NoWrite else write, row.writes, onFailure, delivery,
                    row.dispatches);
    var t := if s.world.disposed || task.status == Removed then Exempted(s, row.newId) else s;
    t.(place := if s.world.disposed then Publishing(c) else Writing(c))
  }

  function StartCleanUp(s: State, row: Row): State {
    match (row.cleanup, Owner(s.world.registry, row.gid))
    case (Finished, Some(id)) =>
      var existing := s.world.registry.tasks[id];
      if s.world.disposed || Terminal(existing.status) then NextRow(s, Dirty)
      else s.(place := Writing(Commit(id, Finish(existing, row), TaskRowAndOccurrence, row.writes, Dirty, MayLose,
                                      row.dispatches)))
    case (Adopted, None) =>
      StartAdoption(s, row, Snapshot(row).(status := Completed), TaskRowAndOccurrence, Dirty, MayLose)
    case _ => NextRow(s, Dirty)
  }

  /** The code from one await to the next. */
  function Resume(merge: Merge, s: State): State {
    match s.place
    case AtRow =>
      if s.rows == [] then s.(place := Ended(false), publications := s.publications + if s.dirty then 1 else 0)
      else
        var row, t := s.rows[0], s.(rows := s.rows[1..]);
        if row.segment || row.pendingMagnet || IsRetired(s.world.registry, row.gid) then NextRow(t, Unchanged)
        else t.(place := Observing(row))
    case Observing(row) =>
      if row.cleanup != Declined then StartCleanUp(s, row)
      else (match Owner(s.world.registry, row.gid)
            case Some(id) => StartUpdate(merge, s, id, s.world.registry.tasks[id], row)
            case None => StartAdoption(s, row, Snapshot(row), TaskRow, Unchanged, NoOccurrence))
    case Waiting(id, existing, merged, row) =>
      if !IsCurrent(s.world, id, existing) then NextRow(s, Unchanged)
      else s.(place := Writing(Commit(id, merged, TaskRowAndOccurrence, row.writes, Unchanged, MustDeliver,
                                      row.dispatches)))
    case Updating(id, existing, merged) =>
      if !IsCurrent(s.world, id, existing) then NextRow(s, Unchanged) else NextRow(Publish(s, id, merged), Dirty)
    case Writing(c) =>
      if !c.writes then NextRow(s, c.onFailure) else Store(s, c.id, c.task.status, c.write).(place := Publishing(c))
    case Publishing(c) =>
      var t := Publish(s, c.id, c.task);
      if c.delivery == NoOccurrence then NextRow(t, Dirty) else t.(place := Dispatching(c))
    case Dispatching(c) => NextRow(s, if c.delivery == MustDeliver && !c.delivers then Threw else Dirty)
    case Ended(_) => s
  }

  // ---------------------------------------------------------------- runs

  datatype Event =
    | StartPoll(ready: bool, rows: seq<Row>)
    | Resumed
    | Disposed                                                   // the Activity runtime
    | OtherWrites(id: Id, status: Status, occurrence: bool)      // another operation, before it publishes
    | OtherPublishes(id: Id, task: Task)
    | OtherAdopts(id: Id, removed: bool)                         // another poll adopts a task that needs no row
    | Saved(id: Id, status: Status)                              // the session, from an earlier snapshot of memory
    | Deleted(id: Id)

  /** The task the poll has locked, or is about to mint. */
  function Held(place: Place): Option<Id> {
    match place
    case Writing(c) => Some(c.id)
    case Publishing(c) => Some(c.id)
    case Dispatching(c) => Some(c.id)
    case _ => None
  }

  /** Other operations publish a final status only when it is on disk, with its occurrence if the task is not new. */
  predicate MayPublish(s: State, id: Id, task: Task) {
    var tasks := s.world.registry.tasks;
    && (id in s.world.durable || id in s.history.exempt)
    && (Terminal(task.status) ==>
          || (id in tasks && tasks[id].status == task.status)
          || (id !in tasks && id in s.history.exempt)
          || (OnDisk(s.world, id, task.status) && (id in tasks ==> (id, task.status) in s.world.occurrences)))
  }

  /** Minted ids are new. */
  predicate MintsFresh(s: State) {
    s.place.Observing? ==>
      var id := s.place.row.newId;
      id !in s.world.registry.tasks && id !in s.world.durable && id !in s.history.exempt
  }

  predicate Enabled(s: State, e: Event) {
    match e
    case StartPoll(_, _) => s.place.Ended?
    case Resumed => !s.place.Ended? && MintsFresh(s)
    case Disposed => true
    case OtherWrites(id, status, _) => Held(s.place) != Some(id) && status != Removed
    case OtherPublishes(id, task) =>
      (Held(s.place) != Some(id) || id in s.world.registry.tasks) && MayPublish(s, id, task)
    case OtherAdopts(id, removed) =>
      && (s.world.disposed || removed)
      && Held(s.place) != Some(id) && id !in s.world.registry.tasks && id !in s.world.durable
    case Saved(id, status) => id in s.world.registry.tasks && status != Removed
    case Deleted(id) => Held(s.place) != Some(id)
  }

  function Step(merge: Merge, s: State, e: Event): State {
    match e
    case StartPoll(ready, rows) => if ready then s.(rows := rows, dirty := false, place := AtRow) else s
    case Resumed => Resume(merge, s)
    case Disposed => s.(world := s.world.(disposed := true))
    case OtherWrites(id, status, occurrence) =>
      Store(s, id, status, if occurrence then TaskRowAndOccurrence else TaskRow)
    case OtherPublishes(id, task) => Publish(s, id, task)
    case OtherAdopts(id, _) => Exempted(s, id)
    case Saved(id, status) => Store(s, id, status, TaskRow)
    case Deleted(id) =>
      s.(world := s.world.(registry := AfterRemove(s.world.registry, id), durable := s.world.durable - {id}),
         history := s.history.(exempt := s.history.exempt - {id}))
  }

  ghost predicate Legal(merge: Merge, s: State, es: seq<Event>)
    decreases |es|
  {
    es != [] ==> Enabled(s, es[0]) && Legal(merge, Step(merge, s, es[0]), es[1..])
  }

  function After(merge: Merge, s: State, es: seq<Event>): State
    decreases |es|
  {
    if es == [] then s else After(merge, Step(merge, s, es[0]), es[1..])
  }

  // ---------------------------------------------------------------- invariant

  /** What is true of one task in memory: it has a row, and its final status, if it has one, was written. */
  predicate TaskBacked(s: State, id: Id)
    requires id in s.world.registry.tasks
  {
    var status := s.world.registry.tasks[id].status;
    id !in s.history.exempt ==> id in s.world.durable && (Terminal(status) ==> (id, status) in s.history.written)
  }

  ghost predicate Backed(s: State) {
    forall id :: id in s.world.registry.tasks ==> TaskBacked(s, id)
  }

  /** Every publication of a final status for an existing task had its row and its occurrence. */
  ghost predicate Recorded(s: State) {
    && (forall p :: p in s.history.turned ==> p in s.history.written && p in s.world.occurrences)
    && (forall p :: p in s.world.occurrences ==> p in s.history.written)
    && (forall id :: id in s.world.durable ==> (id, s.world.durable[id]) in s.history.written)
  }

  /** A commit is for an existing task and carries its occurrence, or for a new one that nobody else knows. */
  predicate CommitShaped(s: State, c: Commit) {
    if c.id in s.world.registry.tasks then c.write == TaskRowAndOccurrence && Terminal(c.task.status)
    else c.id in s.history.exempt <==> c.write == NoWrite || c.task.status == Removed
  }

  /** What has been written when a commit is about to be published. */
  predicate Stored(s: State, c: Commit) {
    if c.id in s.world.registry.tasks
    then
      && c.id in s.world.durable
      && (c.id, c.task.status) in s.history.written && (c.id, c.task.status) in s.world.occurrences
    else
      && (OnDisk(s.world, c.id, c.task.status) <==> c.write != NoWrite && c.task.status != Removed)
      && (c.write == NoWrite || c.task.status == Removed ==> c.id !in s.world.durable)
  }

  predicate PlaceValid(s: State) {
    match s.place
    case Waiting(_, _, merged, _) => Terminal(merged.status)
    case Updating(_, _, merged) => !Terminal(merged.status)
    case Writing(c) =>
      && c.write != NoWrite && CommitShaped(s, c)
      && (c.id !in s.world.registry.tasks ==> c.id !in s.world.durable)
    case Publishing(c) => CommitShaped(s, c) && Stored(s, c)
    case _ => true
  }

  ghost predicate Inv(s: State) {
    Valid(s.world.registry) && Backed(s) && Recorded(s) && PlaceValid(s)
  }

  lemma PublishKeeps(s: State, id: Id, task: Task)
    requires Valid(s.world.registry) && Backed(s) && Recorded(s)
    requires id in s.world.durable || id in s.history.exempt
    requires Terminal(task.status) ==>
      var tasks := s.world.registry.tasks;
      || (id in tasks && tasks[id].status == task.status)
      || ((id, task.status) in s.history.written && (id in tasks ==> (id, task.status) in s.world.occurrences))
      || (id !in tasks && id in s.history.exempt)
    ensures var t := Publish(s, id, task); Valid(t.world.registry) && Backed(t) && Recorded(t)
    ensures Publish(s, id, task).world.registry.tasks == s.world.registry.tasks[id := task]
  {
    SetKeeps(s.world.registry, id, task);
    var t := Publish(s, id, task);
    forall other | other in t.world.registry.tasks ensures TaskBacked(t, other) {
      assert other != id ==> TaskBacked(s, other);
      assert id in s.world.registry.tasks ==> TaskBacked(s, id);
    }
  }

  lemma StoreKeeps(s: State, id: Id, status: Status, write: Write)
    requires Backed(s) && Recorded(s)
    ensures Backed(Store(s, id, status, write)) && Recorded(Store(s, id, status, write))
    ensures Store(s, id, status, write).world.registry == s.world.registry
  {
    var t := Store(s, id, status, write);
    forall other | other in t.world.registry.tasks ensures TaskBacked(t, other) {
      assert TaskBacked(s, other);
    }
  }

  // ---------------------------------------------------------------- every segment keeps it

  lemma AtRowKeeps(merge: Merge, s: State)
    requires Inv(s) && s.place.AtRow?
    ensures Inv(Resume(merge, s)) && Resume(merge, s).world == s.world
  {
    SameWorld(s, Resume(merge, s));
  }

  /** Moving on without touching memory, disk or history. */
  lemma SameWorld(s: State, t: State)
    requires Inv(s) && t.world == s.world && t.history == s.history && PlaceValid(t)
    ensures Inv(t)
  {
    assert forall id :: id in s.world.registry.tasks ==>
             TaskBacked(s, id) && (TaskBacked(t, id) <==> TaskBacked(s, id));
  }

  lemma StartUpdateKeeps(merge: Merge, s: State, id: Id, existing: Task, row: Row)
    requires Inv(s) && s.place.Observing? && id in s.world.registry.tasks && existing == s.world.registry.tasks[id]
    ensures Inv(StartUpdate(merge, s, id, existing, row))
  {
    var merged, t := Merged(merge, existing, row), StartUpdate(merge, s, id, existing, row);
    if HasDelta(existing, merged) && merged.status == existing.status {
      assert TaskBacked(s, id);
      PublishKeeps(s, id, merged);
      SameWorld(Publish(s, id, merged).(place := AtRow), t);
    } else {
      SameWorld(s, t);
    }
  }

  lemma ExemptKeeps(s: State, id: Id)
    requires Inv(s) && s.place.Observing?
    ensures Inv(Exempted(s, id))
  {
    assert forall other :: other in s.world.registry.tasks ==>
             TaskBacked(s, other) && TaskBacked(Exempted(s, id), other);
  }

  lemma StartAdoptionKeeps(s: State, row: Row, task: Task, write: Write, onFailure: Outcome, delivery: Delivery)
    requires Inv(s) && s.place == Observing(row) && MintsFresh(s) && write != NoWrite
    ensures Inv(StartAdoption(s, row, task, write, onFailure, delivery))
  {
    ExemptKeeps(s, row.newId);
    AdoptionPlaced(s, row, task, write, onFailure, delivery);
    SameWorld(if s.world.disposed || task.status == Removed then Exempted(s, row.newId) else s,
              StartAdoption(s, row, task, write, onFailure, delivery));
  }

  lemma AdoptionPlaced(s: State, row: Row, task: Task, write: Write, onFailure: Outcome, delivery: Delivery)
    requires s.place == Observing(row) && MintsFresh(s) && write != NoWrite
    ensures var t := StartAdoption(s, row, task, write, onFailure, delivery);
            && PlaceValid(t) && t.world == s.world
            && t.history == (if s.world.disposed || task.status == Removed then Exempted(s, row.newId) else s).history
  {
  }

  lemma StartCleanUpKeeps(s: State, row: Row)
    requires Inv(s) && s.place == Observing(row) && MintsFresh(s)
    ensures Inv(StartCleanUp(s, row))
  {
    match (row.cleanup, Owner(s.world.registry, row.gid))
    case (Adopted, None) =>
      StartAdoptionKeeps(s, row, Snapshot(row).(status := Completed), TaskRowAndOccurrence, Dirty, MayLose);
    case _ => SameWorld(s, StartCleanUp(s, row));
  }

  lemma ObservingKeeps(merge: Merge, s: State)
    requires Inv(s) && s.place.Observing? && MintsFresh(s)
    ensures Inv(Resume(merge, s))
  {
    var row := s.place.row;
    if row.cleanup != Declined {
      StartCleanUpKeeps(s, row);
    } else {
      match Owner(s.world.registry, row.gid)
      case Some(id) => StartUpdateKeeps(merge, s, id, s.world.registry.tasks[id], row);
      case None => StartAdoptionKeeps(s, row, Snapshot(row), TaskRow, Unchanged, NoOccurrence);
    }
  }

  lemma LockKeeps(merge: Merge, s: State)
    requires Inv(s) && s.place.Waiting?
    ensures Inv(Resume(merge, s))
  {
    SameWorld(s, Resume(merge, s));
  }

  lemma UpdatingKeeps(merge: Merge, s: State)
    requires Inv(s) && s.place.Updating?
    ensures Inv(Resume(merge, s))
  {
    var (id, existing, merged) := (s.place.id, s.place.existing, s.place.merged);
    if IsCurrent(s.world, id, existing) {
      assert TaskBacked(s, id);
      PublishKeeps(s, id, merged);
      SameWorld(Publish(s, id, merged).(place := AtRow), Resume(merge, s));
    } else {
      SameWorld(s, Resume(merge, s));
    }
  }

  lemma WritingKeeps(merge: Merge, s: State)
    requires Inv(s) && s.place.Writing?
    ensures Inv(Resume(merge, s))
  {
    var c := s.place.c;
    if c.writes {
      StoreKeeps(s, c.id, c.task.status, c.write);
      SameWorld(Store(s, c.id, c.task.status, c.write).(place := AtRow), Resume(merge, s));
    } else {
      SameWorld(s, Resume(merge, s));
    }
  }

  lemma PublishingKeeps(merge: Merge, s: State)
    requires Inv(s) && s.place.Publishing?
    ensures Inv(Resume(merge, s))
  {
    var c := s.place.c;
    PublishKeeps(s, c.id, c.task);
    SameWorld(Publish(s, c.id, c.task).(place := AtRow), Resume(merge, s));
  }

  lemma DispatchingKeeps(merge: Merge, s: State)
    requires Inv(s) && s.place.Dispatching?
    ensures Inv(Resume(merge, s))
  {
    SameWorld(s, Resume(merge, s));
  }

  lemma ResumeKeeps(merge: Merge, s: State)
    requires Inv(s) && MintsFresh(s)
    ensures Inv(Resume(merge, s))
  {
    match s.place
    case AtRow => AtRowKeeps(merge, s);
    case Observing(_) => ObservingKeeps(merge, s);
    case Waiting(_, _, _, _) => LockKeeps(merge, s);
    case Updating(_, _, _) => UpdatingKeeps(merge, s);
    case Writing(_) => WritingKeeps(merge, s);
    case Publishing(_) => PublishingKeeps(merge, s);
    case Dispatching(_) => DispatchingKeeps(merge, s);
    case Ended(_) =>
  }

  // ---------------------------------------------------------------- and so does everybody else

  lemma DeletedKeeps(merge: Merge, s: State, id: Id)
    requires Inv(s) && Held(s.place) != Some(id)
    ensures Inv(Step(merge, s, Deleted(id)))
  {
    var t := Step(merge, s, Deleted(id));
    RemoveKeeps(s.world.registry, id);
    forall other | other in t.world.registry.tasks ensures TaskBacked(t, other) {
      assert TaskBacked(s, other);
    }
  }

  lemma OtherWritesKeeps(merge: Merge, s: State, id: Id, status: Status, occurrence: bool)
    requires Inv(s) && Held(s.place) != Some(id) && status != Removed
    ensures Inv(Step(merge, s, OtherWrites(id, status, occurrence)))
  {
    StoreKeeps(s, id, status, if occurrence then TaskRowAndOccurrence else TaskRow);
  }

  lemma OtherAdoptsKeeps(merge: Merge, s: State, id: Id, removed: bool)
    requires Inv(s) && Enabled(s, OtherAdopts(id, removed))
    ensures Inv(Step(merge, s, OtherAdopts(id, removed)))
  {
    var t := Step(merge, s, OtherAdopts(id, removed));
    assert forall other :: other in s.world.registry.tasks ==> TaskBacked(s, other) && TaskBacked(t, other);
  }

  lemma SavedKeeps(merge: Merge, s: State, id: Id, status: Status)
    requires Inv(s) && Enabled(s, Saved(id, status))
    ensures Inv(Step(merge, s, Saved(id, status)))
  {
    StoreKeeps(s, id, status, TaskRow);
  }

  lemma OtherPublishesKeeps(merge: Merge, s: State, id: Id, task: Task)
    requires Inv(s) && Enabled(s, OtherPublishes(id, task))
    ensures Inv(Step(merge, s, OtherPublishes(id, task)))
  {
    PublishKeeps(s, id, task);
  }

  lemma StepKeeps(merge: Merge, s: State, e: Event)
    requires Inv(s) && Enabled(s, e)
    ensures Inv(Step(merge, s, e))
  {
    match e
    case StartPoll(_, _) => SameWorld(s, Step(merge, s, e));
    case Resumed => ResumeKeeps(merge, s);
    case Disposed =>
      assert forall id :: id in s.world.registry.tasks ==> TaskBacked(s, id) && TaskBacked(Step(merge, s, e), id);
    case OtherWrites(id, status, occurrence) => OtherWritesKeeps(merge, s, id, status, occurrence);
    case OtherPublishes(id, task) => OtherPublishesKeeps(merge, s, id, task);
    case OtherAdopts(id, removed) => OtherAdoptsKeeps(merge, s, id, removed);
    case Saved(id, status) => SavedKeeps(merge, s, id, status);
    case Deleted(id) => DeletedKeeps(merge, s, id);
  }

  /**
   * In every state of every run, between the halves of every commit and whatever others do meanwhile: a task that was
   * not exempt when its adoption was decided has a row, and final statuses were written, with their occurrence.
   */
  lemma {:induction false} RunKeeps(merge: Merge, s: State, es: seq<Event>)
    requires Inv(s) && Legal(merge, s, es)
    ensures Inv(After(merge, s, es))
    decreases |es|
  {
    if es != [] {
      StepKeeps(merge, s, es[0]);
      RunKeeps(merge, Step(merge, s, es[0]), es[1..]);
    }
  }
}
