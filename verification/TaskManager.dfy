/** The class of src/core/task/task-manager.ts: each method takes a step of the registry in TaskRegistry. */
module TaskManager {
  import opened Options
  import opened TaskRegistry

  class TaskManager {
    var tasks: map<Id, Task>
    var engineIndex: map<Gid, Id>
    var indexedGids: map<Id, seq<Gid>>
    var reservedEngineGids: set<Gid>
    var retiredEngineGids: seq<Gid>

    constructor ()
      ensures View() == EMPTY && Valid(View())
    {
      tasks, engineIndex, indexedGids, reservedEngineGids, retiredEngineGids := map[], map[], map[], {}, [];
    }

    ghost function View(): Registry
      reads this
    {
      Registry(tasks, engineIndex, indexedGids, reservedEngineGids, retiredEngineGids)
    }

    method DeindexTask(id: Id)
      modifies this`engineIndex, this`indexedGids
      ensures View() == Deindex(old(View()), id)
    {
      var gids := if id in indexedGids then indexedGids[id] else [];
      engineIndex := map g | g in engineIndex && !(g in gids && engineIndex[g] == id) :: engineIndex[g];
      indexedGids := indexedGids - {id};
    }

    method RetireEngineGid(gid: Gid)
      modifies this`retiredEngineGids
      ensures retiredEngineGids == Retire(old(retiredEngineGids), gid)
    {
      if gid == "" || gid in retiredEngineGids { return; }
      retiredEngineGids := retiredEngineGids + [gid];
      if |retiredEngineGids| > MAX_RETIRED {
        retiredEngineGids := retiredEngineGids[|retiredEngineGids| - MAX_RETIRED..];
      }
    }

    method RetireEngineGids(previous: seq<Gid>, kept: seq<Gid>)
      modifies this`retiredEngineGids
      ensures retiredEngineGids == RetireAll(old(retiredEngineGids), previous, kept)
    {
      for i := 0 to |previous|
        invariant RetireAll(retiredEngineGids, previous[i..], kept) == RetireAll(old(retiredEngineGids), previous, kept)
      {
        assert previous[i..][0] == previous[i] && previous[i..][1..] == previous[i + 1..];
        if previous[i] !in kept { RetireEngineGid(previous[i]); }
      }
    }

    method ClaimEngineGids(id: Id, gids: seq<Gid>)
      modifies this
      ensures View() == ClaimAll(old(View()), id, gids)
    {
      for i := 0 to |gids|
        invariant ClaimAll(View(), id, gids[i..]) == ClaimAll(old(View()), id, gids)
      {
        var gid := gids[i];
        assert gids[i..][0] == gid && gids[i..][1..] == gids[i + 1..];
        ghost var before := View();
        reservedEngineGids := reservedEngineGids - {gid};
        retiredEngineGids := Without(retiredEngineGids, gid);
        if gid in engineIndex && engineIndex[gid] != id && engineIndex[gid] in indexedGids {
          var previousOwner := engineIndex[gid];
          indexedGids := indexedGids[previousOwner := Without(indexedGids[previousOwner], gid)];
        }
        engineIndex := engineIndex[gid := id];
        assert View() == Claim(before, id, gid);
      }
    }

    method Set(id: Id, task: Task)
      requires Valid(View())
      modifies this
      ensures View() == AfterSet(old(View()), id, task) && Valid(View())
    {
      SetKeeps(View(), id, task);
      var previous := if id in indexedGids then indexedGids[id] else [];
      if id in tasks { DeindexTask(id); }
      tasks := tasks[id := task];
      RetireEngineGids(previous, task.gids);
      ClaimEngineGids(id, task.gids);
      if task.gids != [] { indexedGids := indexedGids[id := task.gids]; }
    }

    method Remove(id: Id) returns (removed: bool)
      requires Valid(View())
      modifies this
      ensures View() == AfterRemove(old(View()), id) && Valid(View())
      ensures removed <==> id in old(tasks)
    {
      RemoveKeeps(View(), id);
      var gids := if id in indexedGids then indexedGids[id] else [];
      removed := id in tasks;
      if removed { DeindexTask(id); }
      RetireEngineGids(gids, []);
      tasks := tasks - {id};
    }

    function GetByEngineTaskId(gid: Gid): Option<Id>
      reads this
    {
      if gid in engineIndex && engineIndex[gid] in tasks then Some(engineIndex[gid]) else None
    }

    predicate IsEngineTaskIdRetired(gid: Gid)
      reads this
    {
      gid in reservedEngineGids || gid in retiredEngineGids
    }
  }
}
