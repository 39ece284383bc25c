/**
 * What storing and removing tasks does to one engine id: which tasks list it, who owns it, and whether it is retired.
 */
module TaskOwners {
  import opened Options
  import opened TaskRegistry

  // ---------------------------------------------------------------- one task for each engine id

  predicate Leads(r: Registry, g: Gid, id: Id) {
    g in r.engineIndex && r.engineIndex[g] == id
  }

  /** Every engine id that a task lists leads to that task. */
  ghost predicate Exact(r: Registry) {
    forall id, g :: id in r.tasks && g in r.tasks[id].gids ==> Leads(r, g, id)
  }

  /** No engine id of the task is owned by another one. */
  ghost predicate Free(r: Registry, id: Id, task: Task) {
    forall g :: g in task.gids && g in r.engineIndex ==> r.engineIndex[g] == id
  }

  lemma SetIndex(r: Registry, id: Id, task: Task, g: Gid)
    requires Valid(r)
    ensures var t := AfterSet(r, id, task);
            && (g in t.engineIndex <==> g in task.gids || (g in r.engineIndex && r.engineIndex[g] != id))
            && (g in t.engineIndex ==> t.engineIndex[g] == if g in task.gids then id else r.engineIndex[g])
  {
    var p := Prepared(r, id, task);
    PreparedIsClaiming(r, id, task);
    ClaimAllKeeps(p, id, task.gids, task.gids);
    if id in r.tasks { DeindexKeeps(r, id); }
  }

  lemma SetLeads(r: Registry, id: Id, task: Task, other: Id, g: Gid)
    requires Valid(r) && Exact(r) && Free(r, id, task)
    requires var tasks := r.tasks[id := task]; other in tasks && g in tasks[other].gids
    ensures Leads(AfterSet(r, id, task), g, other)
  {
    SetIndex(r, id, task, g);
    assert other != id ==> Leads(r, g, other);
  }

  /** Storing a task keeps one task for each engine id exactly if no other task owns one of its ids. */
  lemma SetExactIff(r: Registry, id: Id, task: Task)
    requires Valid(r) && Exact(r)
    ensures Exact(AfterSet(r, id, task)) <==> Free(r, id, task)
  {
    var t := AfterSet(r, id, task);
    SetKeeps(r, id, task);
    if Free(r, id, task) {
      forall other, g | other in t.tasks && g in t.tasks[other].gids ensures Leads(t, g, other) {
        SetLeads(r, id, task, other, g);
      }
    } else {
      var g :| g in task.gids && g in r.engineIndex && r.engineIndex[g] != id;
      TakenAway(r, id, task, g);
    }
  }

  lemma TakenAway(r: Registry, id: Id, task: Task, g: Gid)
    requires Valid(r) && g in task.gids && g in r.engineIndex && r.engineIndex[g] != id
    ensures !Exact(AfterSet(r, id, task))
  {
    SetKeeps(r, id, task);
    SetIndex(r, id, task, g);
    assert !Leads(AfterSet(r, id, task), g, r.engineIndex[g]);
  }

  lemma RemoveIndex(r: Registry, id: Id, g: Gid)
    requires Valid(r)
    ensures var t := AfterRemove(r, id);
            && (g in t.engineIndex <==> g in r.engineIndex && r.engineIndex[g] != id)
            && (g in t.engineIndex ==> t.engineIndex[g] == r.engineIndex[g])
  {
    if id in r.tasks { DeindexKeeps(r, id); }
  }

  lemma RemoveKeepsExact(r: Registry, id: Id)
    requires Valid(r) && Exact(r)
    ensures Exact(AfterRemove(r, id))
  {
    var t := AfterRemove(r, id);
    RemoveKeeps(r, id);
    forall other, g | other in t.tasks && g in t.tasks[other].gids ensures Leads(t, g, other) {
      assert Leads(r, g, other);
      RemoveIndex(r, id, g);
    }
  }

  // ---------------------------------------------------------------- the shield

  lemma {:induction false} ClaimAllRetired(r: Registry, id: Id, gids: seq<Gid>, g: Gid)
    ensures g in ClaimAll(r, id, gids).retired <==> g in r.retired && g !in gids
    ensures g in ClaimAll(r, id, gids).reserved <==> g in r.reserved && g !in gids
    decreases |gids|
  {
    if gids != [] {
      ClaimAllRetired(Claim(r, id, gids[0]), id, gids[1..], g);
      assert g in gids <==> g == gids[0] || g in gids[1..];
    }
  }

  /** The ids that a retirement appends to the shield. */
  function Pushed(retired: seq<Gid>, previous: seq<Gid>, kept: seq<Gid>): seq<Gid>
    decreases |previous|
  {
    if previous == [] then []
    else if previous[0] in kept || previous[0] == "" || previous[0] in retired then Pushed(retired, previous[1..], kept)
    else [previous[0]] + Pushed(Retire(retired, previous[0]), previous[1..], kept)
  }

  lemma LastOfLast(a: seq<Gid>, b: seq<Gid>)
    ensures Last(Last(a) + b) == Last(a + b)
  {
  }

  /** Retiring appends, and then drops what is too old. */
  lemma {:induction false} RetireAllIsLast(retired: seq<Gid>, previous: seq<Gid>, kept: seq<Gid>)
    requires |retired| <= MAX_RETIRED
    ensures RetireAll(retired, previous, kept) == Last(retired + Pushed(retired, previous, kept))
    decreases |previous|
  {
    if previous == [] {
      assert retired + [] == retired;
    } else {
      var g, rest := previous[0], previous[1..];
      if g in kept || g == "" || g in retired {
        RetireAllIsLast(retired, rest, kept);
      } else {
        RetireAllIsLast(Retire(retired, g), rest, kept);
        PushOne(retired, g, Pushed(Retire(retired, g), rest, kept));
      }
    }
  }

  lemma PushOne(retired: seq<Gid>, g: Gid, pushed: seq<Gid>)
    requires g != "" && g !in retired
    ensures Last(Retire(retired, g) + pushed) == Last(retired + ([g] + pushed)) && |Retire(retired, g)| <= MAX_RETIRED
  {
    LastOfLast(retired + [g], pushed);
    assert retired + [g] + pushed == retired + ([g] + pushed);
  }

  lemma {:induction false} PushedMembers(retired: seq<Gid>, previous: seq<Gid>, kept: seq<Gid>, g: Gid)
    ensures g in Pushed(retired, previous, kept) ==> g in previous && g !in kept
    decreases |previous|
  {
    if previous != [] {
      PushedMembers(retired, previous[1..], kept, g);
      PushedMembers(Retire(retired, previous[0]), previous[1..], kept, g);
    }
  }

  /** An id is evicted exactly when `MAX_RETIRED` ids have been retired after it. */
  lemma EvictedIff(retired: seq<Gid>, k: nat, previous: seq<Gid>, kept: seq<Gid>)
    requires k < |retired| <= MAX_RETIRED && retired[k] !in retired[k + 1..] && retired[k] !in previous
    ensures retired[k] !in RetireAll(retired, previous, kept)
            <==> |retired| - 1 - k + |Pushed(retired, previous, kept)| >= MAX_RETIRED
  {
    var pushed := Pushed(retired, previous, kept);
    RetireAllIsLast(retired, previous, kept);
    PushedMembers(retired, previous, kept, retired[k]);
    LastKeeps(retired, k, pushed);
  }

  lemma LastKeeps(retired: seq<Gid>, k: nat, pushed: seq<Gid>)
    requires k < |retired| <= MAX_RETIRED && retired[k] !in retired[k + 1..] && retired[k] !in pushed
    ensures retired[k] in Last(retired + pushed) <==> |retired| - k + |pushed| <= MAX_RETIRED
  {
    var all := retired + pushed;
    assert forall i :: k < i < |retired| ==> retired[i] == retired[k + 1..][i - k - 1];
    assert forall i :: k < i < |all| ==> all[i] != retired[k];
    var cut := if |all| > MAX_RETIRED then |all| - MAX_RETIRED else 0;
    assert Last(all) == all[cut..];
    if k >= cut { assert all[cut..][k - cut] == retired[k]; }
  }

  // ---------------------------------------------------------------- the standing of one engine id

  datatype Standing = Standing(owner: Option<Id>, retired: bool)

  function StandingOf(r: Registry, g: Gid): Standing {
    Standing(Owner(r, g), IsRetired(r, g))
  }

  /** Storing `task` gives it its ids, and retires those it gives up. */
  function AfterStore(st: Standing, id: Id, task: Task, g: Gid): Standing {
    if g in task.gids then Standing(Some(id), false)
    else if st.owner == Some(id) then Standing(None, true)
    else st
  }

  /** Removing a task retires its ids. */
  function AfterRemoval(st: Standing, id: Id): Standing {
    if st.owner == Some(id) then Standing(None, true) else st
  }

  /** The shield is full, and `g` is among what it drops for the ids that `previous` retires. */
  predicate Evicts(r: Registry, previous: seq<Gid>, kept: seq<Gid>, g: Gid) {
    g !in r.reserved && g in r.retired && g !in Last(r.retired + Pushed(r.retired, previous, kept))
  }

  lemma OwnerIsIndexed(r: Registry, id: Id, g: Gid)
    requires Valid(r)
    ensures g in IndexedOf(r, id) <==> Owner(r, g) == Some(id)
    ensures Owner(r, g).Some? <==> g in r.engineIndex
    ensures Owner(r, g).Some? ==> g !in r.retired
  {
  }

  /** Retiring the ids of a task shields `g` exactly if it is one of them, or was shielded and is not evicted. */
  lemma RetireAllHolds(r: Registry, id: Id, kept: seq<Gid>, g: Gid)
    requires Valid(r) && g != "" && |IndexedOf(r, id)| <= MAX_RETIRED && g !in kept
    ensures var retired := RetireAll(r.retired, IndexedOf(r, id), kept);
            g in r.reserved || g in retired
            <==> Owner(r, g) == Some(id) || (IsRetired(r, g) && !Evicts(r, IndexedOf(r, id), kept, g))
  {
    var previous := IndexedOf(r, id);
    OwnerIsIndexed(r, id, g);
    RetireAllIsLast(r.retired, previous, kept);
    PushedMembers(r.retired, previous, kept, g);
    RetiredMembers(r.retired, previous, kept);
    if g in previous {
      assert forall x :: x in previous ==> x !in r.retired by {
        forall x | x in previous ensures x !in r.retired { OwnerIsIndexed(r, id, x); }
      }
      JustRetiredStay(r.retired, [], previous, kept);
      assert r.retired + [] == r.retired;
    }
  }

  lemma SetStanding(r: Registry, id: Id, task: Task, g: Gid)
    requires Valid(r) && g != "" && |IndexedOf(r, id)| <= MAX_RETIRED
    ensures var t, next := AfterSet(r, id, task), AfterStore(StandingOf(r, g), id, task, g);
            && Owner(t, g) == next.owner
            && (IsRetired(t, g) <==>
                  next.retired && (Owner(r, g) == Some(id) || !Evicts(r, IndexedOf(r, id), task.gids, g)))
  {
    var p := Prepared(r, id, task);
    SetKeeps(r, id, task);
    SetIndex(r, id, task, g);
    OwnerIsIndexed(r, id, g);
    OwnerIsIndexed(AfterSet(r, id, task), id, g);
    ClaimAllRetired(p, id, task.gids, g);
    if g !in task.gids { RetireAllHolds(r, id, task.gids, g); }
  }

  /** Nothing else retires an id, however long the lists and however full the shield. */
  lemma SetRetiresOnly(r: Registry, id: Id, task: Task, g: Gid)
    requires Valid(r)
    ensures IsRetired(AfterSet(r, id, task), g) ==> AfterStore(StandingOf(r, g), id, task, g).retired
  {
    var p := Prepared(r, id, task);
    OwnerIsIndexed(r, id, g);
    RetiredMembers(r.retired, IndexedOf(r, id), task.gids);
    ClaimAllRetired(p, id, task.gids, g);
  }

  lemma RemoveRetiresOnly(r: Registry, id: Id, g: Gid)
    requires Valid(r)
    ensures IsRetired(AfterRemove(r, id), g) ==> AfterRemoval(StandingOf(r, g), id).retired
  {
    OwnerIsIndexed(r, id, g);
    RetiredMembers(r.retired, IndexedOf(r, id), []);
  }

  lemma OwnerMoves(r: Registry, id: Id, task: Task, g: Gid)
    requires Valid(r)
    ensures Owner(AfterSet(r, id, task), g) == AfterStore(StandingOf(r, g), id, task, g).owner
    ensures Owner(AfterRemove(r, id), g) == AfterRemoval(StandingOf(r, g), id).owner
  {
    SetKeeps(r, id, task);
    SetIndex(r, id, task, g);
    RemoveKeeps(r, id);
    RemoveIndex(r, id, g);
    OwnerIsIndexed(r, id, g);
    OwnerIsIndexed(AfterSet(r, id, task), id, g);
    OwnerIsIndexed(AfterRemove(r, id), id, g);
  }

  lemma RemoveStanding(r: Registry, id: Id, g: Gid)
    requires Valid(r) && g != "" && |IndexedOf(r, id)| <= MAX_RETIRED
    ensures var t, next := AfterRemove(r, id), AfterRemoval(StandingOf(r, g), id);
            && Owner(t, g) == next.owner
            && (IsRetired(t, g) <==> next.retired && (Owner(r, g) == Some(id) || !Evicts(r, IndexedOf(r, id), [], g)))
  {
    RemoveKeeps(r, id);
    RemoveIndex(r, id, g);
    OwnerIsIndexed(r, id, g);
    OwnerIsIndexed(AfterRemove(r, id), id, g);
    RetireAllHolds(r, id, [], g);
  }
}
