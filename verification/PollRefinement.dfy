/** An undisturbed poll, segment by segment, has exactly the net effect of PollMachine's rows. */
module PollRefinement {
  import opened Options
  import opened TaskRegistry
  import opened PollMachine
  import opened PollSteps

  function Rank(place: Place): (r: nat)
    ensures r <= 6
  {
    match place
    case Ended(_) => 0
    case AtRow => 1
    case Dispatching(_) => 2
    case Publishing(_) => 3
    case Writing(_) => 4
    case Updating(_, _, _) => 2
    case Waiting(_, _, _, _) => 5
    case Observing(_) => 6
  }

  function Left(s: State): nat {
    6 * |s.rows| + Rank(s.place)
  }

  /** Every segment brings the poll closer to its end. */
  lemma Progress(merge: Merge, s: State)
    requires !s.place.Ended?
    ensures Left(Resume(merge, s)) < Left(s)
  {
    match s.place
    case AtRow =>
      if s.rows != [] { assert |s.rows[1..]| == |s.rows| - 1; }
    case Observing(row) => assert Resume(merge, s).rows == s.rows;
    case _ =>
  }

  /** The segments of a poll until it ends. */
  function Finish(merge: Merge, s: State): State
    decreases Left(s)
  {
    if s.place.Ended? then s
    else
      Progress(merge, s);
      Finish(merge, Resume(merge, s))
  }

  /** The segments of a row until the next one. */
  function RowEnd(merge: Merge, s: State): State
    decreases Left(s)
  {
    if s.place.Ended? || s.place.AtRow? then s
    else
      Progress(merge, s);
      RowEnd(merge, Resume(merge, s))
  }

  lemma {:induction false} FinishFromRowEnd(merge: Merge, s: State)
    ensures Finish(merge, s) == Finish(merge, RowEnd(merge, s))
    decreases Left(s)
  {
    if !s.place.Ended? && !s.place.AtRow? {
      Progress(merge, s);
      FinishFromRowEnd(merge, Resume(merge, s));
    }
  }

  /** `t` is where the row ends that takes `s` to the decision `d`. */
  predicate Takes(s: State, d: Decision, t: State) {
    && t.world == Apply(s.world, d) && t.rows == s.rows && t.publications == s.publications
    && (if d.outcome == Threw then t.place == Ended(true) && t.dirty == s.dirty
        else t.place == AtRow && t.dirty == (s.dirty || d.outcome == Dirty))
  }

  lemma PublishingTakes(merge: Merge, s: State, c: Commit)
    requires s.place == Publishing(c)
    ensures var t := RowEnd(merge, s);
            var threw := c.delivery == MustDeliver && !c.delivers;
            && t.world == s.world.(registry := AfterSet(s.world.registry, c.id, c.task))
            && t.rows == s.rows && t.publications == s.publications
            && (if threw then t.place == Ended(true) && t.dirty == s.dirty else t.place == AtRow && t.dirty)
  {
    var t := Resume(merge, s);
    if c.delivery == NoOccurrence {
      assert RowEnd(merge, s) == t;
    } else {
      var u := Resume(merge, t);
      assert RowEnd(merge, t) == u;
    }
  }

  predicate IsPut(c: Commit, d: Decision) {
    d == Put(c.id, c.task, c.write, if c.delivery == MustDeliver && !c.delivers then Threw else Dirty)
  }

  lemma WritingTakes(merge: Merge, s: State, c: Commit, d: Decision)
    requires s.place == Writing(c) && c.onFailure != Threw
    requires (if c.writes then IsPut(c, d) else d == Leave(c.onFailure))
    ensures Takes(s, d, RowEnd(merge, s))
  {
    var t := Resume(merge, s);
    if c.writes {
      PublishingTakes(merge, t, c);
    } else {
      assert RowEnd(merge, s) == t;
    }
  }

  lemma UnwrittenTakes(merge: Merge, s: State, c: Commit, d: Decision)
    requires s.place == Publishing(c) && c.write == NoWrite && IsPut(c, d)
    ensures Takes(s, d, RowEnd(merge, s))
  {
    PublishingTakes(merge, s, c);
  }

  lemma AdoptionTakes(merge: Merge, s: State, row: Row, task: Task, write: Write, onFailure: Outcome,
                      delivery: Delivery, d: Decision)
    requires onFailure != Threw && delivery != MustDeliver
    requires d == if s.world.disposed then Put(row.newId, task, NoWrite, Dirty)
                  else if row.writes then Put(row.newId, task, write, Dirty)
                  else Leave(onFailure)
    ensures Takes(s, d, RowEnd(merge, StartAdoption(s, row, task, write, onFailure, delivery)))
  {
    var t := StartAdoption(s, row, task, write, onFailure, delivery);
    if s.world.disposed { UnwrittenTakes(merge, t, t.place.c, d); } else { WritingTakes(merge, t, t.place.c, d); }
  }

  lemma UpdateTakes(merge: Merge, s: State, id: Id, existing: Task, row: Row)
    requires id in s.world.registry.tasks && existing == s.world.registry.tasks[id]
    ensures Takes(s, Update(merge, s.world, id, existing, row), RowEnd(merge, StartUpdate(merge, s, id, existing, row)))
  {
    var t, merged := StartUpdate(merge, s, id, existing, row), Merged(merge, existing, row);
    if t.place.Waiting? {
      var u := Resume(merge, t);
      WritingTakes(merge, u, u.place.c, Update(merge, s.world, id, existing, row));
    } else if t.place.Updating? {
      assert RowEnd(merge, t) == Resume(merge, t);
    }
  }

  lemma CleanUpTakes(merge: Merge, s: State, row: Row)
    ensures Takes(s, CleanUp(s.world, row), RowEnd(merge, StartCleanUp(s, row)))
  {
    match (row.cleanup, Owner(s.world.registry, row.gid))
    case (Adopted, None) =>
      AdoptionTakes(merge, s, row, Snapshot(row).(status := Completed), TaskRowAndOccurrence, Dirty, MayLose,
                    CleanUp(s.world, row));
    case (Finished, Some(_)) =>
      var t := StartCleanUp(s, row);
      if t.place.Writing? { WritingTakes(merge, t, t.place.c, CleanUp(s.world, row)); }
    case _ =>
  }

  /** One undisturbed row does what was decided on its first segment. */
  lemma RowTakes(merge: Merge, s: State)
    requires s.place.AtRow? && s.rows != []
    ensures Takes(s.(rows := s.rows[1..]), Decide(merge, s.world, s.rows[0]), RowEnd(merge, Resume(merge, s)))
  {
    var row, t := s.rows[0], s.(rows := s.rows[1..]);
    var u := Resume(merge, s);
    if u.place.Observing? {
      ObservedTakes(merge, u, row);
    } else {
      assert RowEnd(merge, u) == u;
    }
  }

  lemma ObservedTakes(merge: Merge, s: State, row: Row)
    requires s.place == Observing(row) && !row.segment && !row.pendingMagnet && !IsRetired(s.world.registry, row.gid)
    ensures Takes(s, Decide(merge, s.world, row), RowEnd(merge, s))
  {
    Progress(merge, s);
    assert RowEnd(merge, s) == RowEnd(merge, Resume(merge, s));
    if row.cleanup != Declined {
      CleanUpTakes(merge, s, row);
    } else {
      match Owner(s.world.registry, row.gid)
      case Some(id) => UpdateTakes(merge, s, id, s.world.registry.tasks[id], row);
      case None => AdoptionTakes(merge, s, row, Snapshot(row), TaskRow, Unchanged, NoOccurrence, Adopt(s.world, row));
    }
  }

  /**
   * The whole poll: the same world, the same reason to stop, and one publication if something changed and nothing
   * threw.
   */
  lemma {:induction false} PollRefines(merge: Merge, s: State)
    requires s.place.AtRow?
    ensures var t, p := Finish(merge, s), HandleRows(merge, s.world, s.rows, s.dirty);
            && t.world == p.world && t.place == Ended(p.threw) && t.dirty == p.dirty
            && t.publications == s.publications + if p.dirty && !p.threw then 1 else 0
    decreases |s.rows|
  {
    Progress(merge, s);
    var u := Resume(merge, s);
    if s.rows == [] {
      assert Finish(merge, s) == u;
    } else {
      var v := RowEnd(merge, u);
      RowTakes(merge, s);
      FinishFromRowEnd(merge, u);
      assert Finish(merge, s) == Finish(merge, v);
      if v.place.AtRow? { PollRefines(merge, v); }
    }
  }
}
