/** src/core/task/task-manager.ts: tasks, the index from engine ids to their owners, and the shield of retired ids. */
module TaskRegistry {
  import opened Options

  type Gid = string
  type Id = nat

  datatype Status = Running(kind: nat) | Completed | Failed | Removed

  predicate Terminal(s: Status) {
    s == Completed || s == Failed
  }

  /**
   * `identity` is that of the JavaScript object, `gids` are the engine ids of its instances in order, without
   * repetition, and `detail` stands for everything else that is compared.
   */
  datatype Task = Task(identity: nat, gids: seq<Gid>, status: Status, detail: nat)

  const MAX_RETIRED: nat := 4096

  datatype Registry = Registry(
    tasks: map<Id, Task>,
    engineIndex: map<Gid, Id>,
    indexed: map<Id, seq<Gid>>,
    reserved: set<Gid>,
    retired: seq<Gid>)

  const EMPTY := Registry(map[], map[], map[], {}, [])

  function Without(gids: seq<Gid>, gid: Gid): (r: seq<Gid>)
    ensures forall g :: g in r <==> g in gids && g != gid
    ensures |r| <= |gids|
  {
    if gids == [] then []
    else if gids[0] == gid then Without(gids[1..], gid)
    else [gids[0]] + Without(gids[1..], gid)
  }

  /** The engine ids that a previous `set` indexed. */
  function IndexedOf(r: Registry, id: Id): seq<Gid> {
    if id in r.indexed then r.indexed[id] else []
  }

  function Deindex(r: Registry, id: Id): Registry {
    r.(engineIndex := map g |
         g in r.engineIndex && !(g in IndexedOf(r, id) && r.engineIndex[g] == id) :: r.engineIndex[g],
       indexed := r.indexed - {id})
  }

  function Last(retired: seq<Gid>): seq<Gid> {
    if |retired| > MAX_RETIRED then retired[|retired| - MAX_RETIRED..] else retired
  }

  function Retire(retired: seq<Gid>, gid: Gid): seq<Gid> {
    if gid == "" || gid in retired then retired else Last(retired + [gid])
  }

  /** Retires the ids of `previous` that are not in `kept`. */
  function RetireAll(retired: seq<Gid>, previous: seq<Gid>, kept: seq<Gid>): seq<Gid>
    decreases |previous|
  {
    if previous == [] then retired
    else RetireAll(if previous[0] in kept then retired else Retire(retired, previous[0]), previous[1..], kept)
  }

  /** `id` becomes the owner of one engine id. */
  function Claim(r: Registry, id: Id, gid: Gid): Registry {
    var owner := if gid in r.engineIndex then Some(r.engineIndex[gid]) else None;
    r.(reserved := r.reserved - {gid},
       retired := Without(r.retired, gid),
       indexed := if owner.Some? && owner.value != id && owner.value in r.indexed
                  then r.indexed[owner.value := Without(r.indexed[owner.value], gid)] else r.indexed,
       engineIndex := r.engineIndex[gid := id])
  }

  function ClaimAll(r: Registry, id: Id, gids: seq<Gid>): Registry
    decreases |gids|
  {
    if gids == [] then r else ClaimAll(Claim(r, id, gids[0]), id, gids[1..])
  }

  /** What `set` has done before it claims the new ids. */
  function Prepared(r: Registry, id: Id, task: Task): Registry {
    var r1 := if id in r.tasks then Deindex(r, id) else r;
    r1.(tasks := r1.tasks[id := task], retired := RetireAll(r1.retired, IndexedOf(r, id), task.gids))
  }

  /** `set`. */
  function AfterSet(r: Registry, id: Id, task: Task): Registry {
    var r3 := ClaimAll(Prepared(r, id, task), id, task.gids);
    if task.gids == [] then r3 else r3.(indexed := r3.indexed[id := task.gids])
  }

  /** `remove`. */
  function AfterRemove(r: Registry, id: Id): Registry {
    var gids := IndexedOf(r, id);
    var r1 := if id in r.tasks then Deindex(r, id) else r;
    r1.(retired := RetireAll(r1.retired, gids, []), tasks := r1.tasks - {id})
  }

  function Owner(r: Registry, gid: Gid): Option<Id> {
    if gid in r.engineIndex && r.engineIndex[gid] in r.tasks then Some(r.engineIndex[gid]) else None
  }

  predicate IsRetired(r: Registry, gid: Gid) {
    gid in r.reserved || gid in r.retired
  }

  // ---------------------------------------------------------------- invariant

  /** The index and what each task contributed to it say the same. */
  ghost predicate IndexValid(r: Registry) {
    && (forall g :: g in r.engineIndex ==> r.engineIndex[g] in r.indexed && g in r.indexed[r.engineIndex[g]])
    && (forall id, g :: id in r.indexed && g in r.indexed[id] ==> g in r.engineIndex && r.engineIndex[g] == id)
  }

  ghost predicate OwnersValid(r: Registry) {
    forall id :: id in r.indexed ==> id in r.tasks && forall g :: g in r.indexed[id] ==> g in r.tasks[id].gids
  }

  /** No engine id is both owned and retired, and the shield is bounded. */
  ghost predicate ShieldValid(r: Registry) {
    |r.retired| <= MAX_RETIRED && forall g :: g in r.retired ==> g !in r.engineIndex
  }

  ghost predicate Valid(r: Registry) {
    IndexValid(r) && OwnersValid(r) && ShieldValid(r)
  }

  lemma DeindexKeeps(r: Registry, id: Id)
    requires Valid(r)
    ensures Valid(Deindex(r, id))
    ensures forall g :: g in Deindex(r, id).engineIndex <==> g in r.engineIndex && r.engineIndex[g] != id
    ensures forall g :: g in IndexedOf(r, id) ==> g !in Deindex(r, id).engineIndex
  {
  }

  lemma {:induction false} RetiredMembers(retired: seq<Gid>, previous: seq<Gid>, kept: seq<Gid>)
    requires |retired| <= MAX_RETIRED
    ensures |RetireAll(retired, previous, kept)| <= MAX_RETIRED
    ensures forall g :: g in RetireAll(retired, previous, kept) ==> g in retired || (g in previous && g !in kept)
    decreases |previous|
  {
    if previous != [] {
      RetiredMembers(if previous[0] in kept then retired else Retire(retired, previous[0]), previous[1..], kept);
    }
  }

  /** While a task is being stored its new ids are indexed but not yet on its own list. */
  ghost predicate Claiming(r: Registry, id: Id, gids: seq<Gid>) {
    && id in r.tasks && id !in r.indexed
    && (forall g :: g in r.engineIndex ==>
          if r.engineIndex[g] == id then g in gids
          else r.engineIndex[g] in r.indexed && g in r.indexed[r.engineIndex[g]])
    && (forall o, g :: o in r.indexed && g in r.indexed[o] ==> g in r.engineIndex && r.engineIndex[g] == o)
    && OwnersValid(r) && ShieldValid(r)
  }

  lemma ClaimKeeps(r: Registry, id: Id, gids: seq<Gid>, gid: Gid)
    requires Claiming(r, id, gids) && gid in gids
    ensures Claiming(Claim(r, id, gid), id, gids)
  {
  }

  lemma {:induction false} ClaimAllKeeps(r: Registry, id: Id, gids: seq<Gid>, rest: seq<Gid>)
    requires Claiming(r, id, gids) && forall g :: g in rest ==> g in gids
    ensures Claiming(ClaimAll(r, id, rest), id, gids)
    ensures ClaimAll(r, id, rest).tasks == r.tasks
    ensures forall g :: g in ClaimAll(r, id, rest).engineIndex <==> g in r.engineIndex || g in rest
    ensures forall g :: g in rest ==> ClaimAll(r, id, rest).engineIndex[g] == id
    ensures forall g :: g in r.engineIndex && g !in rest ==> ClaimAll(r, id, rest).engineIndex[g] == r.engineIndex[g]
    decreases |rest|
  {
    if rest != [] {
      ClaimKeeps(r, id, gids, rest[0]);
      ClaimAllKeeps(Claim(r, id, rest[0]), id, gids, rest[1..]);
      assert forall g :: g in rest <==> g == rest[0] || g in rest[1..];
    }
  }

  lemma PreparedIsClaiming(r: Registry, id: Id, task: Task)
    requires Valid(r)
    ensures Claiming(Prepared(r, id, task), id, task.gids)
  {
    if id in r.tasks { DeindexKeeps(r, id); }
    var r1 := if id in r.tasks then Deindex(r, id) else r;
    RetiredMembers(r1.retired, IndexedOf(r, id), task.gids);
    assert Valid(r1) && id !in r1.indexed;
    assert forall g :: g in IndexedOf(r, id) ==> g !in r1.engineIndex;
  }

  lemma ClaimedIsValid(r: Registry, id: Id, gids: seq<Gid>)
    requires Claiming(r, id, gids) && r.tasks[id].gids == gids
    requires forall g :: g in gids ==> g in r.engineIndex && r.engineIndex[g] == id
    ensures Valid(if gids == [] then r else r.(indexed := r.indexed[id := gids]))
  {
  }

  lemma SetKeeps(r: Registry, id: Id, task: Task)
    requires Valid(r)
    ensures Valid(AfterSet(r, id, task))
    ensures AfterSet(r, id, task).tasks == r.tasks[id := task]
    ensures forall g :: g in task.gids ==>
              Owner(AfterSet(r, id, task), g) == Some(id) && !IsRetired(AfterSet(r, id, task), g)
  {
    var p := Prepared(r, id, task);
    PreparedIsClaiming(r, id, task);
    ClaimAllKeeps(p, id, task.gids, task.gids);
    ClaimedIsValid(ClaimAll(p, id, task.gids), id, task.gids);
    ClaimedNotRetired(p, id, task.gids);
  }

  /** Of two tasks with one engine id the one stored last is the owner, and both stay. */
  lemma SetTwice(r: Registry, first: Id, a: Task, second: Id, b: Task, gid: Gid)
    requires Valid(r) && gid in b.gids
    ensures var t := AfterSet(AfterSet(r, first, a), second, b);
            t.tasks == r.tasks[first := a][second := b] && Owner(t, gid) == Some(second)
  {
    SetKeeps(r, first, a);
    SetKeeps(AfterSet(r, first, a), second, b);
  }

  lemma {:induction false} ClaimedNotRetired(r: Registry, id: Id, gids: seq<Gid>)
    ensures forall g :: g in gids ==> !IsRetired(ClaimAll(r, id, gids), g)
    ensures forall g :: !IsRetired(r, g) ==> !IsRetired(ClaimAll(r, id, gids), g)
    decreases |gids|
  {
    if gids != [] {
      ClaimedNotRetired(Claim(r, id, gids[0]), id, gids[1..]);
      assert forall g :: g in gids <==> g == gids[0] || g in gids[1..];
    }
  }

  /** Ids retired together are all shielded afterwards, however full the shield was. */
  lemma {:induction false} JustRetiredStay(earlier: seq<Gid>, recent: seq<Gid>, previous: seq<Gid>, kept: seq<Gid>)
    requires |recent| + |previous| <= MAX_RETIRED && forall g :: g in previous ==> g !in earlier
    ensures forall g :: g in recent ==> g in RetireAll(earlier + recent, previous, kept)
    ensures forall g :: g in previous && g !in kept && g != "" ==> g in RetireAll(earlier + recent, previous, kept)
    decreases |previous|
  {
    if previous != [] {
      var g := previous[0];
      if g in kept || g == "" || g in recent {
        JustRetiredStay(earlier, recent, previous[1..], kept);
      } else {
        var all := earlier + recent + [g];
        var cut := if |all| > MAX_RETIRED then |all| - MAX_RETIRED else 0;
        assert Retire(earlier + recent, g) == earlier[cut..] + (recent + [g]);
        assert forall x :: x in earlier[cut..] ==> x in earlier;
        assert forall x :: x in previous[1..] ==> x in previous;
        JustRetiredStay(earlier[cut..], recent + [g], previous[1..], kept);
      }
      assert forall x :: x in previous <==> x == g || x in previous[1..];
    }
  }

  lemma RemoveKeeps(r: Registry, id: Id)
    requires Valid(r)
    ensures Valid(AfterRemove(r, id))
    ensures AfterRemove(r, id).tasks == r.tasks - {id}
  {
    if id in r.tasks { DeindexKeeps(r, id); }
    RetiredMembers((if id in r.tasks then Deindex(r, id) else r).retired, IndexedOf(r, id), []);
  }

  /** The engine ids of a removed task have no owner and are shielded against adoption. */
  lemma RemovedAreShielded(r: Registry, id: Id, gid: Gid)
    requires Valid(r) && gid in IndexedOf(r, id) && gid != "" && |IndexedOf(r, id)| <= MAX_RETIRED
    ensures Owner(AfterRemove(r, id), gid) == None && IsRetired(AfterRemove(r, id), gid)
  {
    DeindexKeeps(r, id);
    JustRetiredStay(r.retired, [], IndexedOf(r, id), []);
    assert r.retired + [] == r.retired;
  }
}
