/** The polling loop over the task manager, suspended at its awaits: each method runs the code up to the next one. */
module Polling {
  import opened Options
  import opened TaskRegistry
  import opened PollMachine
  import PollSteps
  import PollRefinement
  import TM = TaskManager

  class PollHandler {
    const taskManager: TM.TaskManager
    var durable: map<Id, Status>
    var occurrences: set<(Id, Status)>
    var disposed: bool
    var rows: seq<Row>
    var dirty: bool
    var place: PollSteps.Place
    var publications: nat
    ghost var history: PollSteps.History

    constructor (taskManager: TM.TaskManager)
      requires taskManager.View() == EMPTY
      ensures this.taskManager == taskManager && View() == PollSteps.INITIAL
    {
      this.taskManager, durable, occurrences, disposed := taskManager, map[], {}, false;
      rows, dirty, place, publications := [], false, PollSteps.Ended(false), 0;
      history := PollSteps.History({}, {}, {});
    }

    ghost function View(): PollSteps.State
      reads this, taskManager
    {
      PollSteps.State(World(taskManager.View(), durable, occurrences, disposed), rows, dirty, place, publications,
                      history)
    }

    /** One transaction; a removed task is silently not written. */
    method Persist(id: Id, status: Status, write: Write)
      modifies this`durable, this`occurrences, this`history
      ensures View() == PollSteps.Store(old(View()), id, status, write)
    {
      if write == NoWrite || status == Removed { return; }
      durable := durable[id := status];
      if write == TaskRowAndOccurrence { occurrences := occurrences + {(id, status)}; }
      history := history.(written := history.written + {(id, status)});
    }

    method SetTask(id: Id, task: Task)
      requires Valid(taskManager.View())
      modifies taskManager, this`history
      ensures View() == PollSteps.Publish(old(View()), id, task) && Valid(taskManager.View())
    {
      history := PollSteps.Publish(View(), id, task).history;
      taskManager.Set(id, task);
    }

    /** Goes on with the next row, or lets the exception end the poll. */
    method Continue(outcome: Outcome)
      modifies this`dirty, this`place
      ensures View() == PollSteps.NextRow(old(View()), outcome)
    {
      if outcome == Threw {
        place := PollSteps.Ended(true);
        return;
      }
      place := PollSteps.AtRow;
      if outcome == Dirty { dirty := true; }
    }

    method TakeRow()
      requires place.AtRow?
      modifies this`rows, this`dirty, this`place, this`publications
      ensures forall merge :: View() == PollSteps.Resume(merge, old(View()))
    {
      if rows == [] {
        place := PollSteps.Ended(false);
        if dirty { publications := publications + 1; }
        return;
      }
      var row := rows[0];
      rows := rows[1..];
      if row.segment || row.pendingMagnet || taskManager.IsEngineTaskIdRetired(row.gid) {
        Continue(Unchanged);
        return;
      }
      place := PollSteps.Observing(row);
    }

    method UpdateTask(merge: Merge, id: Id, row: Row)
      requires Valid(taskManager.View()) && id in taskManager.tasks
      modifies this, taskManager
      ensures View() == PollSteps.StartUpdate(merge, old(View()), id, old(taskManager.tasks[id]), row)
      ensures Valid(taskManager.View())
    {
      var existing := taskManager.tasks[id];
      var merged := Merged(merge, existing, row);
      if merged.status == existing.status && merged.detail == existing.detail {
        Continue(Unchanged);
      } else if merged.status == existing.status {
        SetTask(id, merged);
        Continue(Dirty);
      } else if !Terminal(merged.status) {
        place := PollSteps.Updating(id, existing, merged);
      } else if disposed {
        Continue(Threw);
      } else {
        place := PollSteps.Waiting(id, existing, merged, row);
      }
    }

    method AdoptTask(row: Row, task: Task, write: Write, onFailure: Outcome, delivery: PollSteps.Delivery)
      modifies this`place, this`history
      ensures View() == PollSteps.StartAdoption(old(View()), row, task, write, onFailure, delivery)
    {
      if disposed || task.status == Removed {
        history := history.(exempt := history.exempt + {row.newId});
      }
      if disposed {
        place := PollSteps.Publishing(PollSteps.Commit(row.newId, task, NoWrite, row.writes, onFailure, delivery,
                                                       row.dispatches));
      } else {
        place := PollSteps.Writing(PollSteps.Commit(row.newId, task, write, row.writes, onFailure, delivery,
                                                    row.dispatches));
      }
    }

    /** The cleanup is another component: it does what its contract allows. */
    method CleanUpTask(row: Row)
      modifies this`dirty, this`place, this`history
      ensures View() == PollSteps.StartCleanUp(old(View()), row)
    {
      var owner := taskManager.GetByEngineTaskId(row.gid);
      if row.cleanup == Finished && owner.Some? {
        var existing := taskManager.tasks[owner.value];
        if disposed || Terminal(existing.status) {
          Continue(Dirty);
        } else {
          place := PollSteps.Writing(PollSteps.Commit(owner.value, Finish(existing, row), TaskRowAndOccurrence,
                                                      row.writes, Dirty, PollSteps.MayLose, row.dispatches));
        }
      } else if row.cleanup == Adopted && owner.None? {
        AdoptTask(row, Snapshot(row).(status := Completed), TaskRowAndOccurrence, Dirty, PollSteps.MayLose);
      } else {
        Continue(Dirty);
      }
    }

    method Observed(merge: Merge)
      requires Valid(taskManager.View()) && place.Observing?
      modifies this, taskManager
      ensures View() == PollSteps.Resume(merge, old(View())) && Valid(taskManager.View())
    {
      var row := place.row;
      if row.cleanup != Declined {
        CleanUpTask(row);
        return;
      }
      var owner := taskManager.GetByEngineTaskId(row.gid);
      if owner.Some? {
        UpdateTask(merge, owner.value, row);
      } else {
        AdoptTask(row, Snapshot(row), TaskRow, Unchanged, PollSteps.NoOccurrence);
      }
    }

    /** A commit under the task's lock: the check, the write, the publication and the delivery, one after the other. */
    method Commit(merge: Merge)
      requires Valid(taskManager.View()) && !place.AtRow? && !place.Observing? && !place.Ended?
      modifies this, taskManager
      ensures View() == PollSteps.Resume(merge, old(View())) && Valid(taskManager.View())
    {
      match place
      case Waiting(id, existing, merged, row) =>
        if id !in taskManager.tasks || taskManager.tasks[id].identity != existing.identity {
          Continue(Unchanged);
        } else {
          place := PollSteps.Writing(PollSteps.Commit(id, merged, TaskRowAndOccurrence, row.writes, Unchanged,
                                                      PollSteps.MustDeliver, row.dispatches));
        }
      case Updating(id, existing, merged) =>
        if id !in taskManager.tasks || taskManager.tasks[id].identity != existing.identity {
          Continue(Unchanged);
        } else {
          SetTask(id, merged);
          Continue(Dirty);
        }
      case Writing(c) =>
        if !c.writes {
          Continue(c.onFailure);
        } else {
          Persist(c.id, c.task.status, c.write);
          place := PollSteps.Publishing(c);
        }
      case Publishing(c) =>
        SetTask(c.id, c.task);
        if c.delivery == PollSteps.NoOccurrence { Continue(Dirty); } else { place := PollSteps.Dispatching(c); }
      case Dispatching(c) =>
        Continue(if c.delivery == PollSteps.MustDeliver && !c.delivers then Threw else Dirty);
    }

    method Resume(merge: Merge)
      requires Valid(taskManager.View()) && !place.Ended?
      modifies this, taskManager
      ensures View() == PollSteps.Step(merge, old(View()), PollSteps.Resumed) && Valid(taskManager.View())
    {
      if place.AtRow? {
        TakeRow();
      } else if place.Observing? {
        Observed(merge);
      } else {
        Commit(merge);
      }
    }

    method Start(ready: bool, polled: seq<Row>)
      requires place.Ended?
      modifies this`rows, this`dirty, this`place
      ensures forall merge :: View() == PollSteps.Step(merge, old(View()), PollSteps.StartPoll(ready, polled))
    {
      if !ready { return; }
      rows, dirty, place := polled, false, PollSteps.AtRow;
    }

    /**
     * A poll during which nothing else happens: rows in order, up to one that throws, and one publication at the end if
     * some row changed something.
     */
    method HandlePolledTasks(merge: Merge, ready: bool, polled: seq<Row>)
      requires Valid(taskManager.View()) && place.Ended?
      modifies this, taskManager
      ensures Valid(taskManager.View())
      ensures var start := PollSteps.Step(merge, old(View()), PollSteps.StartPoll(ready, polled));
              View() == PollRefinement.Finish(merge, start)
      ensures ready ==>
                var poll := HandleRows(merge, old(View()).world, polled, false);
                && View().world == poll.world && place == PollSteps.Ended(poll.threw)
                && publications == old(publications) + if poll.dirty && !poll.threw then 1 else 0
      ensures ready ==>
                forall k: nat, id {:trigger Decides(merge, old(View()).world, polled, k, id)} ::
                  Decides(merge, old(View()).world, polled, k, id) ==>
                    && var before := HandleRows(merge, old(View()).world, polled[..k], false).world;
                       Shows(merge, before, polled[k], id, taskManager.tasks)
    {
      Start(ready, polled);
      ghost var start := View();
      assert start == PollSteps.Step(merge, old(View()), PollSteps.StartPoll(ready, polled));
      if ready { PollRefinement.PollRefines(merge, start); }
      while !place.Ended?
        invariant Valid(taskManager.View())
        invariant PollRefinement.Finish(merge, View()) == PollRefinement.Finish(merge, start)
        decreases PollRefinement.Left(View())
      {
        PollRefinement.Progress(merge, View());
        Resume(merge);
      }
      if ready { AllShow(merge, start.world, polled); }
    }
  }

  lemma AllShow(merge: Merge, w: World, polled: seq<Row>)
    requires Valid(w.registry)
    ensures forall k: nat, id {:trigger Decides(merge, w, polled, k, id)} ::
              Decides(merge, w, polled, k, id) ==>
                Shows(merge, HandleRows(merge, w, polled[..k], false).world, polled[k], id,
                      HandleRows(merge, w, polled, false).world.registry.tasks)
  {
    forall k: nat, id | Decides(merge, w, polled, k, id)
      ensures Shows(merge, HandleRows(merge, w, polled[..k], false).world, polled[k], id,
                    HandleRows(merge, w, polled, false).world.registry.tasks) {
      PollShows(merge, w, polled, k, id);
    }
  }
}
