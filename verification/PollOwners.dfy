/**
 * One engine id through polls and through everything that happens between their segments: its tasks and its
 * retirement.
 */
module PollOwners {
  import opened Options
  import opened TaskRegistry
  import opened TaskOwners
  import opened PollMachine
  import opened PollSteps

  // ---------------------------------------------------------------- undisturbed polls

  lemma RowKeepsExact(merge: Merge, w: World, row: Row)
    requires Valid(w.registry) && Exact(w.registry)
    ensures var t := Apply(w, Decide(merge, w, row)); Valid(t.registry) && Exact(t.registry)
  {
    var d := Decide(merge, w, row);
    if d.Put? {
      PutGoesToOwner(merge, w, row);
      PutIsFree(w.registry, row.gid, d.id, d.task);
      SetKeeps(w.registry, d.id, d.task);
      SetExactIff(w.registry, d.id, d.task);
    }
  }

  /** A task with the ids of the owner, or with one id that nobody owns. */
  lemma PutIsFree(r: Registry, gid: Gid, id: Id, task: Task)
    requires Valid(r) && Exact(r)
    requires match Owner(r, gid)
             case Some(owner) => id == owner && task.gids == r.tasks[owner].gids
             case None => task.gids == [gid]
    ensures Free(r, id, task)
  {
    OwnerIsIndexed(r, id, gid);
    if Owner(r, gid).Some? { assert forall g :: g in task.gids ==> Leads(r, g, id); }
  }

  lemma {:induction false} PollKeepsExact(merge: Merge, w: World, rows: seq<Row>, dirty: bool)
    requires Valid(w.registry) && Exact(w.registry)
    ensures var t := HandleRows(merge, w, rows, dirty).world; Valid(t.registry) && Exact(t.registry)
    decreases |rows|
  {
    if rows != [] {
      var d := Decide(merge, w, rows[0]);
      RowKeepsExact(merge, w, rows[0]);
      if d.outcome != Threw { PollKeepsExact(merge, Apply(w, d), rows[1..], dirty || d.outcome == Dirty); }
    }
  }

  /** Polls one after the other, whatever their rows, their failures and the state of the runtime. */
  function HandlePolls(merge: Merge, w: World, polls: seq<(bool, seq<Row>)>): World
    decreases |polls|
  {
    if polls == [] then w
    else HandlePolls(merge, HandleRows(merge, w.(disposed := w.disposed || polls[0].0), polls[0].1, false).world,
                     polls[1..])
  }

  lemma {:induction false} PollsKeepExact(merge: Merge, w: World, polls: seq<(bool, seq<Row>)>)
    requires Valid(w.registry) && Exact(w.registry)
    ensures var t := HandlePolls(merge, w, polls); Valid(t.registry) && Exact(t.registry)
    decreases |polls|
  {
    if polls != [] {
      var u := w.(disposed := w.disposed || polls[0].0);
      PollKeepsExact(merge, u, polls[0].1, false);
      PollsKeepExact(merge, HandleRows(merge, u, polls[0].1, false).world, polls[1..]);
    }
  }

  /**
   * After any sequence of polls no two tasks in memory list one engine id, and the index leads to the one that does.
   */
  lemma OneTaskForEachId(merge: Merge, w: World, polls: seq<(bool, seq<Row>)>, a: Id, b: Id, g: Gid)
    requires Valid(w.registry) && Exact(w.registry)
    requires var tasks := HandlePolls(merge, w, polls).registry.tasks;
             a in tasks && b in tasks && g in tasks[a].gids && g in tasks[b].gids
    ensures a == b && Owner(HandlePolls(merge, w, polls).registry, g) == Some(a)
  {
    var r := HandlePolls(merge, w, polls).registry;
    PollsKeepExact(merge, w, polls);
    assert Leads(r, g, a) && Leads(r, g, b);
  }

  // ---------------------------------------------------------------- every publication of every run

  /** What a step stores, if anything. */
  function Publication(merge: Merge, s: State, e: Event): Option<(Id, Task)> {
    match e
    case OtherPublishes(id, task) => Some((id, task))
    case Resumed =>
      (match s.place
       case Publishing(c) => Some((c.id, c.task))
       case Updating(id, existing, merged) => if IsCurrent(s.world, id, existing) then Some((id, merged)) else None
       case Observing(row) => (match Owner(s.world.registry, row.gid)
                               case Some(id) => if row.cleanup == Declined then Republished(merge, s, id, row) else None
                               case None => None)
       case _ => None)
    case _ => None
  }

  /** An update that keeps the status needs no commit. */
  function Republished(merge: Merge, s: State, id: Id, row: Row): Option<(Id, Task)>
    requires id in s.world.registry.tasks
  {
    var existing := s.world.registry.tasks[id];
    var merged := Merged(merge, existing, row);
    if HasDelta(existing, merged) && merged.status == existing.status then Some((id, merged)) else None
  }

  predicate IsPublicationFree(r: Registry, p: Option<(Id, Task)>) {
    p.Some? ==> forall g :: g in p.value.1.gids && g in r.engineIndex ==> r.engineIndex[g] == p.value.0
  }

  function RegistryAfter(r: Registry, p: Option<(Id, Task)>): Registry {
    if p.Some? then AfterSet(r, p.value.0, p.value.1) else r
  }

  lemma PublicationIsAll(merge: Merge, s: State, e: Event)
    requires Enabled(s, e) && !e.Deleted?
    ensures Step(merge, s, e).world.registry == RegistryAfter(s.world.registry, Publication(merge, s, e))
  {
    if e == Resumed && s.place.Observing? { ObservedPublication(merge, s, s.place.row); }
  }

  lemma ObservedPublication(merge: Merge, s: State, row: Row)
    requires s.place == Observing(row)
    ensures Resume(merge, s).world.registry == RegistryAfter(s.world.registry, Publication(merge, s, Resumed))
  {
    if row.cleanup == Declined {
      match Owner(s.world.registry, row.gid)
      case Some(id) => UpdatePublication(merge, s, id, row);
      case None =>
    } else {
      CleanUpLeavesWorld(s, row);
    }
  }

  lemma UpdatePublication(merge: Merge, s: State, id: Id, row: Row)
    requires id in s.world.registry.tasks
    ensures StartUpdate(merge, s, id, s.world.registry.tasks[id], row).world.registry
            == RegistryAfter(s.world.registry, Republished(merge, s, id, row))
  {
  }

  lemma CleanUpLeavesWorld(s: State, row: Row)
    ensures StartCleanUp(s, row).world == s.world
  {
  }

  /** A step keeps one task for each engine id exactly if it publishes no id that another task owns. */
  lemma ExactIff(merge: Merge, s: State, e: Event)
    requires Inv(s) && Enabled(s, e) && Exact(s.world.registry)
    ensures Exact(Step(merge, s, e).world.registry) <==> IsPublicationFree(s.world.registry, Publication(merge, s, e))
  {
    if e.Deleted? {
      RemoveKeepsExact(s.world.registry, e.id);
    } else {
      PublicationIsAll(merge, s, e);
      PublicationExactIff(s.world.registry, Publication(merge, s, e));
    }
  }

  lemma PublicationExactIff(r: Registry, p: Option<(Id, Task)>)
    requires Valid(r) && Exact(r)
    ensures Exact(RegistryAfter(r, p)) <==> IsPublicationFree(r, p)
  {
    if p.Some? { SetExactIff(r, p.value.0, p.value.1); }
  }

  ghost predicate AllPublicationsFree(merge: Merge, s: State, es: seq<Event>)
    decreases |es|
  {
    es != [] ==> && IsPublicationFree(s.world.registry, Publication(merge, s, es[0]))
                 && AllPublicationsFree(merge, Step(merge, s, es[0]), es[1..])
  }

  ghost predicate AlwaysExact(merge: Merge, s: State, es: seq<Event>)
    decreases |es|
  {
    Exact(s.world.registry) && (es != [] ==> AlwaysExact(merge, Step(merge, s, es[0]), es[1..]))
  }

  /** Over a whole run each engine id has one task at every point exactly if every publication was free. */
  lemma {:induction false} AlwaysExactIff(merge: Merge, s: State, es: seq<Event>)
    requires Inv(s) && Legal(merge, s, es) && Exact(s.world.registry)
    ensures AlwaysExact(merge, s, es) <==> AllPublicationsFree(merge, s, es)
    decreases |es|
  {
    if es != [] {
      ExactIff(merge, s, es[0]);
      StepKeeps(merge, s, es[0]);
      if Exact(Step(merge, s, es[0]).world.registry) { AlwaysExactIff(merge, Step(merge, s, es[0]), es[1..]); }
    }
  }

  // ---------------------------------------------------------------- while a poll is suspended

  /** What an event of somebody else does to one engine id. */
  function Moved(st: Standing, e: Event, g: Gid): Standing {
    match e
    case OtherPublishes(id, task) => AfterStore(st, id, task, g)
    case Deleted(id) => AfterRemoval(st, id)
    case _ => st
  }

  function StandingAfter(st: Standing, es: seq<Event>, g: Gid): Standing
    decreases |es|
  {
    if es == [] then st else StandingAfter(Moved(st, es[0], g), es[1..], g)
  }

  /** The ids an event retires fit into the shield without pushing `g` out. */
  predicate Shelters(s: State, e: Event, g: Gid) {
    var r := s.world.registry;
    match e
    case OtherPublishes(id, task) => |IndexedOf(r, id)| <= MAX_RETIRED && !Evicts(r, IndexedOf(r, id), task.gids, g)
    case Deleted(id) => |IndexedOf(r, id)| <= MAX_RETIRED && !Evicts(r, IndexedOf(r, id), [], g)
    case _ => true
  }

  ghost predicate AllShelter(merge: Merge, s: State, es: seq<Event>, g: Gid)
    decreases |es|
  {
    es != [] ==> Shelters(s, es[0], g) && AllShelter(merge, Step(merge, s, es[0]), es[1..], g)
  }

  /** The poll does nothing but, perhaps, write. */
  ghost predicate Suspended(merge: Merge, s: State, es: seq<Event>)
    decreases |es|
  {
    es != [] ==> (es[0] == Resumed ==> s.place.Writing?) && Suspended(merge, Step(merge, s, es[0]), es[1..])
  }

  /** Who owns an id after an event, and whether the event can have retired it. */
  lemma OwnerOrRetirement(merge: Merge, s: State, e: Event, st: Standing, g: Gid)
    requires Inv(s) && Enabled(s, e) && (e == Resumed ==> s.place.Writing?)
    requires st.owner == Owner(s.world.registry, g) && (IsRetired(s.world.registry, g) ==> st.retired)
    ensures var r := Step(merge, s, e).world.registry;
            Owner(r, g) == Moved(st, e, g).owner && (IsRetired(r, g) ==> Moved(st, e, g).retired)
  {
    match e
    case OtherPublishes(id, task) =>
      OwnerMoves(s.world.registry, id, task, g);
      SetRetiresOnly(s.world.registry, id, task, g);
    case Deleted(id) =>
      OwnerMoves(s.world.registry, id, Task(0, [], Completed, 0), g);
      RemoveRetiresOnly(s.world.registry, id, g);
    case _ =>
  }

  /** Exactly what an event does to an id, as long as the shield holds it. */
  lemma StandingMoves(merge: Merge, s: State, e: Event, g: Gid)
    requires Inv(s) && Enabled(s, e) && (e == Resumed ==> s.place.Writing?) && g != "" && Shelters(s, e, g)
    ensures StandingOf(Step(merge, s, e).world.registry, g) == Moved(StandingOf(s.world.registry, g), e, g)
  {
    match e
    case OtherPublishes(id, task) => SetStanding(s.world.registry, id, task, g);
    case Deleted(id) => RemoveStanding(s.world.registry, id, g);
    case _ =>
  }

  /** Whatever happens while a poll is suspended, the last event that concerns an id decides about it. */
  lemma {:induction false} StandingIs(merge: Merge, s: State, es: seq<Event>, st: Standing, g: Gid)
    requires Inv(s) && Legal(merge, s, es) && Suspended(merge, s, es)
    requires st.owner == Owner(s.world.registry, g) && (IsRetired(s.world.registry, g) ==> st.retired)
    ensures var r, last := After(merge, s, es).world.registry, StandingAfter(st, es, g);
            && Owner(r, g) == last.owner && (IsRetired(r, g) ==> last.retired)
            && (g != "" && st == StandingOf(s.world.registry, g) && AllShelter(merge, s, es, g) ==>
                  StandingOf(r, g) == last)
    ensures Inv(After(merge, s, es))
    decreases |es|
  {
    if es != [] {
      StepKeeps(merge, s, es[0]);
      OwnerOrRetirement(merge, s, es[0], st, g);
      if g != "" && Shelters(s, es[0], g) { StandingMoves(merge, s, es[0], g); }
      StandingIs(merge, Step(merge, s, es[0]), es[1..], Moved(st, es[0], g), g);
    }
  }

  // ---------------------------------------------------------------- overlapping adoptions

  /** Another task than `id` lists `g`. */
  ghost predicate ListedElsewhere(r: Registry, id: Id, g: Gid) {
    exists other :: other in r.tasks && other != id && g in r.tasks[other].gids
  }

  /**
   * An adoption that waits for its write or its publication gives an engine id a second task exactly if the last event
   * that concerned the id in the meantime gave it an owner.
   */
  lemma AdoptsTwiceIff(merge: Merge, s: State, es: seq<Event>, c: Commit, g: Gid)
    requires Inv(s) && Legal(merge, s, es) && Suspended(merge, s, es)
    requires var u := After(merge, s, es);
             && u.place == Publishing(c) && c.task.gids == [g]
             && c.id !in u.world.registry.tasks && Exact(u.world.registry)
    ensures var t := Resume(merge, After(merge, s, es)).world.registry;
            && c.id in t.tasks && g in t.tasks[c.id].gids
            && (ListedElsewhere(t, c.id, g) <==> StandingAfter(StandingOf(s.world.registry, g), es, g).owner.Some?)
  {
    StandingIs(merge, s, es, StandingOf(s.world.registry, g), g);
    PublishesSecond(merge, After(merge, s, es), c, g);
  }

  lemma PublishesSecond(merge: Merge, s: State, c: Commit, g: Gid)
    requires Inv(s) && s.place == Publishing(c) && c.task.gids == [g] && c.id !in s.world.registry.tasks
    requires Exact(s.world.registry)
    ensures var t := Resume(merge, s).world.registry;
            && c.id in t.tasks && g in t.tasks[c.id].gids
            && (ListedElsewhere(t, c.id, g) <==> Owner(s.world.registry, g).Some?)
  {
    SecondTaskIff(s.world.registry, c.id, c.task, g);
  }

  lemma SecondTaskIff(r: Registry, id: Id, task: Task, g: Gid)
    requires Valid(r) && Exact(r) && id !in r.tasks && task.gids == [g]
    ensures AfterSet(r, id, task).tasks == r.tasks[id := task]
    ensures ListedElsewhere(AfterSet(r, id, task), id, g) <==> Owner(r, g).Some?
  {
    var t := AfterSet(r, id, task);
    SetKeeps(r, id, task);
    OwnerIsIndexed(r, id, g);
    if Owner(r, g).Some? {
      assert g in t.tasks[Owner(r, g).value].gids;
    } else {
      forall other | other in t.tasks && other != id ensures g !in t.tasks[other].gids {
        assert g in r.tasks[other].gids ==> Leads(r, g, other);
      }
    }
  }

  // ---------------------------------------------------------------- retired ids

  predicate Adopts(t: State, row: Row) {
    (t.place.Writing? || t.place.Publishing?) && t.place.c.id == row.newId
  }

  /**
   * A row passes the check at its head with an id that is not retired. When it is decided the id is retired only if the
   * last event during `observe` that concerned it retired it, and exactly then unless the shield has evicted it. The
   * row is adopted exactly if that event left no owner, retired or not.
   */
  lemma RetiredWhenDecidedIff(merge: Merge, s: State, es: seq<Event>, row: Row)
    requires Inv(s) && s.place.AtRow? && s.rows != [] && row == s.rows[0] && Resume(merge, s).place == Observing(row)
    requires Legal(merge, Resume(merge, s), es) && Suspended(merge, Resume(merge, s), es)
    ensures var d := After(merge, Resume(merge, s), es);
            var last := StandingAfter(Standing(Owner(s.world.registry, row.gid), false), es, row.gid);
            && d.place == Observing(row)
            && (IsRetired(d.world.registry, row.gid) ==> last.retired)
            && (row.gid != "" && AllShelter(merge, Resume(merge, s), es, row.gid) ==>
                  (IsRetired(d.world.registry, row.gid) <==> last.retired))
            && (last.retired ==> last.owner == None)
            && (row.cleanup == Declined && row.newId !in d.world.registry.tasks ==>
                  (Adopts(Resume(merge, d), row) <==> last.owner == None))
  {
    var u, st := Resume(merge, s), Standing(Owner(s.world.registry, row.gid), false);
    AtRowKeeps(merge, s);
    StandingIs(merge, u, es, st, row.gid);
    StaysSuspended(merge, u, es, row);
    RetiredHasNoOwner(st, es, row.gid);
    var d := After(merge, u, es);
    if row.cleanup == Declined && row.newId !in d.world.registry.tasks { AdoptsIffUnowned(merge, d, row); }
  }

  lemma {:induction false} StaysSuspended(merge: Merge, s: State, es: seq<Event>, row: Row)
    requires s.place == Observing(row) && Legal(merge, s, es) && Suspended(merge, s, es)
    ensures After(merge, s, es).place == Observing(row)
    decreases |es|
  {
    if es != [] { StaysSuspended(merge, Step(merge, s, es[0]), es[1..], row); }
  }

  lemma {:induction false} RetiredHasNoOwner(st: Standing, es: seq<Event>, g: Gid)
    requires st.retired ==> st.owner == None
    ensures StandingAfter(st, es, g).retired ==> StandingAfter(st, es, g).owner == None
    decreases |es|
  {
    if es != [] { RetiredHasNoOwner(Moved(st, es[0], g), es[1..], g); }
  }

  lemma AdoptsIffUnowned(merge: Merge, s: State, row: Row)
    requires s.place == Observing(row) && row.cleanup == Declined && row.newId !in s.world.registry.tasks
    ensures Adopts(Resume(merge, s), row) <==> Owner(s.world.registry, row.gid) == None
  {
    match Owner(s.world.registry, row.gid)
    case Some(id) => UpdateAdoptsNothing(merge, s, id, row);
    case None =>
  }

  lemma UpdateAdoptsNothing(merge: Merge, s: State, id: Id, row: Row)
    requires s.place == Observing(row) && id in s.world.registry.tasks
    ensures !Adopts(StartUpdate(merge, s, id, s.world.registry.tasks[id], row), row)
  {
  }
}
