/**
 * The shutdown sequence of src/server/shutdown.ts as a machine: a caller starts it, actions finish or fail in any
 * order, their wrappers react, and the sequence goes on whenever the wrappers it awaits have settled.
 */
module ShutdownMachine {
  import opened Options

  datatype Action =
    | GateShell | Flush
    | Polling | Ingress | Bridge | Producers | DevWatcher | PluginHost | PluginNetwork | Magnet | GeoIP | SpeedLimit
    | Tracker | Session | Engine | FinalizeFs | Activity | Stats | Database | Ownership

  const ALL: set<Action> :=
    {GateShell, Flush, Polling, Ingress, Bridge, Producers, DevWatcher, PluginHost, PluginNetwork, Magnet, GeoIP,
     SpeedLimit, Tracker, Session, Engine, FinalizeFs, Activity, Stats, Database, Ownership}

  /** What the sequence is waiting for. */
  datatype Stage =
    | NotCalled | AwaitFlush | AwaitTracker | AwaitBridge | AwaitAll | AwaitFinalizeFs
    | AwaitShell | AwaitActivity | AwaitStats | AwaitDatabase | AwaitOwnership | Finished

  datatype Completion = Fulfilled | Rejected

  /**
   * A rejection that reaches the sequence aborts it, and one that nobody handles by the end of its tick ends the
   * process.
   */
  datatype Fate = Going | Aborted | Crashed

  /**
   * `absent` are the optional actions that are not given. `settled` and `failed` are about the promises of the actions,
   * `done` and `rejected` about those of their wrappers.
   */
  datatype State = State(
    absent: set<Action>, stage: Stage, started: seq<Action>, settled: set<Action>, failed: set<Action>,
    done: set<Action>, rejected: set<Action>, reported: seq<Action>, fate: Fate)

  const OPTIONAL: set<Action> := {Flush, PluginNetwork, FinalizeFs, Ownership}

  /** Calling an action that is not given settles at once. */
  function Initial(absent: set<Action>): State {
    State(absent, NotCalled, [], absent, {}, absent, {}, [], Going)
  }

  function Start(s: State, stage: Stage, actions: seq<Action>): State {
    s.(stage := stage, started := s.started + actions)
  }

  function Rank(stage: Stage): (r: nat)
    ensures r <= 11
  {
    match stage
    case NotCalled => 0
    case AwaitFlush => 1
    case AwaitTracker => 2
    case AwaitBridge => 3
    case AwaitAll => 4
    case AwaitFinalizeFs => 5
    case AwaitShell => 6
    case AwaitActivity => 7
    case AwaitStats => 8
    case AwaitDatabase => 9
    case AwaitOwnership => 10
    case Finished => 11
  }

  /** The stage that awaits an action; the bridge, awaited again with the rest, has settled by then. */
  function AwaitedIn(a: Action): Stage {
    match a
    case Flush => AwaitFlush
    case Tracker => AwaitTracker
    case Bridge => AwaitBridge
    case FinalizeFs => AwaitFinalizeFs
    case GateShell => AwaitShell
    case Activity => AwaitActivity
    case Stats => AwaitStats
    case Database => AwaitDatabase
    case Ownership => AwaitOwnership
    case _ => AwaitAll
  }

  predicate CanContinue(s: State) {
    s.fate == Going && s.stage != NotCalled && s.stage != Finished
      && forall a :: AwaitedIn(a) == s.stage ==> a in s.done
  }

  /** The actions started when a stage is left, and the next stage. */
  function Starts(absent: set<Action>, stage: Stage): seq<Action> {
    match stage
    case AwaitFlush =>
      [Polling, Ingress, Bridge, Producers, DevWatcher, PluginHost]
      + (if PluginNetwork in absent then [] else [PluginNetwork]) + [Magnet, GeoIP, SpeedLimit, Tracker]
    case AwaitBridge => [Session, Engine]
    case AwaitAll => if FinalizeFs in absent then [] else [FinalizeFs]
    case AwaitShell => [Activity]
    case AwaitActivity => [Stats]
    case AwaitStats => [Database]
    case AwaitDatabase => if Ownership in absent then [] else [Ownership]
    case _ => []
  }

  function Next(absent: set<Action>, stage: Stage): Stage {
    match stage
    case NotCalled => AwaitFlush
    case AwaitFlush => AwaitTracker
    case AwaitTracker => AwaitBridge
    case AwaitBridge => AwaitAll
    case AwaitAll => if FinalizeFs in absent then AwaitShell else AwaitFinalizeFs
    case AwaitFinalizeFs => AwaitShell
    case AwaitShell => AwaitActivity
    case AwaitActivity => AwaitStats
    case AwaitStats => AwaitDatabase
    case AwaitDatabase => AwaitOwnership
    case AwaitOwnership => Finished
    case Finished => Finished
  }

  /** The code between two awaits, unless what was awaited throws. */
  function Continue(s: State): State {
    if exists a :: AwaitedIn(a) == s.stage && a in s.rejected then s.(fate := Aborted)
    else Start(s, Next(s.absent, s.stage), Starts(s.absent, s.stage))
  }

  /** The gate may throw before it returns a promise; that is reported there and then. */
  function Begin(s: State, gateThrows: bool): State {
    var t := Start(s, AwaitFlush, if Flush in s.absent then [GateShell] else [GateShell, Flush]);
    if !gateThrows then t
    else t.(settled := t.settled + {GateShell}, done := t.done + {GateShell}, failed := t.failed + {GateShell},
            reported := t.reported + [GateShell])
  }

  /** A call: only the first does anything. */
  function Call(s: State, gateThrows: bool): State {
    if s.stage != NotCalled then s
    else
      var t := Begin(s, gateThrows);
      if Flush in s.absent then Continue(t) else t
  }

  function Settle(s: State, a: Action, fails: bool): State {
    s.(settled := s.settled + {a}, failed := if fails then s.failed + {a} else s.failed)
  }

  /**
   * Every action is started inside its wrapper, except the gate: its promise is given to a wrapper when it is
   * awaited.
   */
  predicate IsWrapped(s: State, a: Action) {
    a in s.started && (a == GateShell ==> Rank(s.stage) >= Rank(AwaitShell))
  }

  /** `safely`: what it reports, and how its own promise settles. */
  function Safely(s: State, a: Action): (State, Completion) {
    if a in s.failed then (s.(reported := s.reported + [a]), Fulfilled) else (s, Fulfilled)
  }

  function React(s: State, a: Action): State {
    var (t, completion) := Safely(s, a);
    t.(done := t.done + {a}, rejected := if completion == Rejected then t.rejected + {a} else t.rejected)
  }

  /** The gate has rejected and nothing handles it yet. */
  predicate IsUnhandled(s: State) {
    GateShell in s.failed && GateShell !in s.done && !IsWrapped(s, GateShell)
  }

  /** When the microtasks are over, a rejection without a handler ends the process. */
  function EndTick(s: State): State {
    if IsUnhandled(s) then s.(fate := Crashed) else s
  }

  datatype Event = Called(gateThrows: bool) | Settled(a: Action, fails: bool) | Reacted(a: Action) | Continued
    | TickEnded

  predicate Enabled(s: State, e: Event) {
    && s.fate != Crashed
    && match e
       case Called(_) => true
       case Settled(a, _) => a in s.started && a !in s.settled
       case Reacted(a) => a in s.settled && a !in s.done && IsWrapped(s, a)
       case Continued => CanContinue(s)
       case TickEnded => true
  }

  function Step(s: State, e: Event): State {
    match e
    case Called(gateThrows) => Call(s, gateThrows)
    case Settled(a, fails) => Settle(s, a, fails)
    case Reacted(a) => React(s, a)
    case Continued => Continue(s)
    case TickEnded => EndTick(s)
  }

  // ---------------------------------------------------------------- invariant

  /** The stage an action is started in leaving. */
  function StartRank(a: Action): nat {
    match a
    case GateShell => 0
    case Flush => 0
    case Session => 3
    case Engine => 3
    case FinalizeFs => 4
    case Activity => 6
    case Stats => 7
    case Database => 8
    case Ownership => 9
    case _ => 1
  }

  ghost predicate Distinct(xs: seq<Action>) {
    forall i, j :: 0 <= i < j < |xs| ==> xs[i] != xs[j]
  }

  ghost predicate StartsValid(s: State) {
    && Distinct(s.started)
    && (forall a :: a in s.started <==> StartRank(a) < Rank(s.stage) && a !in s.absent)
  }

  /** The failures reported are those whose wrapper has reacted, each of them once. */
  ghost predicate ReportsValid(s: State) {
    && Distinct(s.reported)
    && (forall a :: a in s.failed ==> a in s.started && a in s.settled)
    && (forall a :: a in s.reported <==> a in s.failed && a in s.done)
  }

  /** No rejection ever reaches the sequence. */
  ghost predicate FateValid(s: State) {
    && s.rejected == {} && s.fate != Aborted
    && (s.fate == Crashed ==> s.stage != NotCalled && Rank(s.stage) < Rank(AwaitShell))
  }

  /** Everything awaited in the stages that are over has settled. */
  ghost predicate BehindDone(s: State) {
    forall a :: Rank(AwaitedIn(a)) < Rank(s.stage) ==> a in s.done
  }

  ghost predicate Valid(s: State) {
    && s.absent <= OPTIONAL && s.absent <= s.done <= s.settled
    && BehindDone(s)
    && (forall a :: a in s.settled ==> a in s.started || a in s.absent)
    && StartsValid(s) && ReportsValid(s) && FateValid(s)
  }

  lemma Appended(xs: seq<Action>, ys: seq<Action>)
    requires Distinct(xs) && Distinct(ys) && forall a :: a in xs ==> a !in ys
    ensures Distinct(xs + ys)
  {
    forall i, j | 0 <= i < j < |xs + ys| ensures (xs + ys)[i] != (xs + ys)[j] {
      assert i < |xs| ==> (xs + ys)[i] in xs;
      assert j >= |xs| ==> (xs + ys)[j] in ys;
    }
  }

  lemma BatchDistinct(absent: set<Action>)
    ensures Distinct(Starts(absent, AwaitFlush))
  {
    var early, late := [Polling, Ingress, Bridge, Producers, DevWatcher, PluginHost],
      [Magnet, GeoIP, SpeedLimit, Tracker];
    var network := if PluginNetwork in absent then [] else [PluginNetwork];
    Appended(early, network);
    Appended(early + network, late);
  }

  lemma BatchMembers(absent: set<Action>, a: Action)
    ensures a in Starts(absent, AwaitFlush) <==> StartRank(a) == 1 && a !in absent * {PluginNetwork}
  {
  }

  lemma StartsByRank(absent: set<Action>, stage: Stage)
    requires stage != NotCalled && absent <= OPTIONAL
    ensures Distinct(Starts(absent, stage))
    ensures forall a :: a in Starts(absent, stage) <==> StartRank(a) == Rank(stage) && a !in absent
  {
    if stage == AwaitFlush {
      BatchDistinct(absent);
      forall a ensures a in Starts(absent, stage) <==> StartRank(a) == Rank(stage) && a !in absent {
        BatchMembers(absent, a);
      }
    } else {
      FewStarts(absent, stage);
    }
  }

  lemma FewStarts(absent: set<Action>, stage: Stage)
    requires stage != NotCalled && stage != AwaitFlush && absent <= OPTIONAL
    ensures Distinct(Starts(absent, stage))
    ensures forall a :: a in Starts(absent, stage) <==> StartRank(a) == Rank(stage) && a !in absent
  {
  }

  lemma NextRank(absent: set<Action>, stage: Stage)
    requires stage != Finished
    ensures var next := Next(absent, stage);
            Rank(next) == Rank(stage) + 1 || (stage == AwaitAll && FinalizeFs in absent && next == AwaitShell)
  {
  }

  lemma StageOfRank(a: Action, stage: Stage)
    ensures AwaitedIn(a) == stage <==> Rank(AwaitedIn(a)) == Rank(stage)
  {
  }

  lemma StartedGrows(s: State, stage: Stage, starts: seq<Action>)
    requires StartsValid(s) && Distinct(starts) && s.absent <= OPTIONAL
    requires forall a :: a in starts <==> StartRank(a) == Rank(s.stage) && a !in s.absent
    requires Rank(stage) == Rank(s.stage) + 1 || (s.stage == AwaitAll && FinalizeFs in s.absent && stage == AwaitShell)
    ensures StartsValid(Start(s, stage, starts))
  {
    Appended(s.started, starts);
  }

  lemma BehindGrows(s: State, stage: Stage)
    requires BehindDone(s) && CanContinue(s) && s.absent <= s.done
    requires Rank(stage) == Rank(s.stage) + 1 || (s.stage == AwaitAll && FinalizeFs in s.absent && stage == AwaitShell)
    ensures BehindDone(s.(stage := stage))
  {
    forall a | Rank(AwaitedIn(a)) < Rank(stage) ensures a in s.done {
      StageOfRank(a, s.stage);
      StageOfRank(a, AwaitFinalizeFs);
    }
  }

  lemma ContinueKeeps(s: State)
    requires Valid(s) && CanContinue(s)
    ensures Valid(Continue(s))
  {
    var stage, starts := Next(s.absent, s.stage), Starts(s.absent, s.stage);
    NextRank(s.absent, s.stage);
    StartsByRank(s.absent, s.stage);
    ContinueTo(s, stage, starts);
  }

  lemma ContinueTo(s: State, stage: Stage, starts: seq<Action>)
    requires Valid(s) && CanContinue(s) && stage == Next(s.absent, s.stage) && starts == Starts(s.absent, s.stage)
    requires Distinct(starts) && forall a :: a in starts <==> StartRank(a) == Rank(s.stage) && a !in s.absent
    requires Rank(stage) == Rank(s.stage) + 1 || (s.stage == AwaitAll && FinalizeFs in s.absent && stage == AwaitShell)
    ensures Valid(Continue(s))
  {
    StartedGrows(s, stage, starts);
    BehindGrows(s, stage);
  }

  lemma CallKeeps(s: State, gateThrows: bool)
    requires Valid(s) && s.fate == Going
    ensures Valid(Call(s, gateThrows)) && Call(s, gateThrows).fate == Going
  {
    if s.stage == NotCalled {
      BeginKeeps(s, gateThrows);
      if Flush in s.absent {
        ContinueKeeps(Begin(s, gateThrows));
      }
    }
  }

  lemma BeginKeeps(s: State, gateThrows: bool)
    requires Valid(s) && s.stage == NotCalled
    ensures Valid(Begin(s, gateThrows))
  {
    var starts := if Flush in s.absent then [GateShell] else [GateShell, Flush];
    assert forall a :: a in starts <==> StartRank(a) == 0 && a !in s.absent;
    StartedGrows(s, AwaitFlush, starts);
    assert forall a :: a in s.failed ==> a in s.started;
    Appended(s.reported, [GateShell]);
  }

  lemma SettleKeeps(s: State, a: Action, fails: bool)
    requires Valid(s) && Enabled(s, Settled(a, fails))
    ensures Valid(Settle(s, a, fails))
  {
  }

  lemma ReactKeeps(s: State, a: Action)
    requires Valid(s) && Enabled(s, Reacted(a))
    ensures Valid(React(s, a))
  {
    Appended(s.reported, [a]);
  }

  lemma StepKeeps(s: State, e: Event)
    requires Valid(s) && Enabled(s, e)
    ensures Valid(Step(s, e))
  {
    match e
    case Called(gateThrows) => CallKeeps(s, gateThrows);
    case Settled(a, fails) => SettleKeeps(s, a, fails);
    case Reacted(a) => ReactKeeps(s, a);
    case Continued => ContinueKeeps(s);
    case TickEnded =>
  }

  lemma InitialValid(absent: set<Action>)
    requires absent <= OPTIONAL
    ensures Valid(Initial(absent))
  {
  }

  // ---------------------------------------------------------------- runs

  ghost predicate Legal(s: State, es: seq<Event>)
    decreases |es|
  {
    es != [] ==> Enabled(s, es[0]) && Legal(Step(s, es[0]), es[1..])
  }

  function After(s: State, es: seq<Event>): State
    decreases |es|
  {
    if es == [] then s else After(Step(s, es[0]), es[1..])
  }

  lemma {:induction false} RunKeeps(s: State, es: seq<Event>)
    requires Valid(s) && Legal(s, es)
    ensures Valid(After(s, es))
    decreases |es|
  {
    if es != [] {
      StepKeeps(s, es[0]);
      RunKeeps(Step(s, es[0]), es[1..]);
    }
  }

  predicate IsClosing(a: Action) {
    a != GateShell && a != FinalizeFs && a != Activity && a != Stats && a != Database && a != Ownership
  }

  /** What the comments of the file ask for: `before` is over when `a` starts. */
  predicate MustPrecede(before: Action, a: Action) {
    match a
    case GateShell => false
    case Flush => false
    case Session => before == Flush || before == Tracker || before == Bridge
    case Engine => before == Flush || before == Tracker || before == Bridge
    case FinalizeFs => IsClosing(before)
    case Activity => IsClosing(before) || before == FinalizeFs || before == GateShell
    case Stats => IsClosing(before) || before == FinalizeFs || before == GateShell || before == Activity
    case Database => before != Database && before != Ownership
    case Ownership => before != Ownership
    case _ => before == Flush
  }

  lemma PrecedenceByRank(before: Action, a: Action)
    requires MustPrecede(before, a)
    ensures Rank(AwaitedIn(before)) <= StartRank(a)
  {
  }

  /**
   * At every point of the shutdown, whatever completes or fails in whatever order: no action starts twice, or early.
   */
  lemma OrderKept(absent: set<Action>, es: seq<Event>)
    requires absent <= OPTIONAL && Legal(Initial(absent), es)
    ensures Distinct(After(Initial(absent), es).started)
    ensures forall a, b :: a in After(Initial(absent), es).started && MustPrecede(b, a) ==>
              b in After(Initial(absent), es).done
  {
    var s := After(Initial(absent), es);
    InitialValid(absent);
    RunKeeps(Initial(absent), es);
    forall a, b | a in s.started && MustPrecede(b, a) ensures b in s.done {
      PrecedenceByRank(b, a);
    }
  }

  /** The teardowns that cancel what handlers, plugins and the engine may be blocked on. */
  predicate Cancels(a: Action) {
    a == Polling || a == Ingress || a == Bridge || a == Producers || a == DevWatcher || a == PluginHost
    || a == PluginNetwork || a == Magnet || a == GeoIP || a == SpeedLimit || a == Tracker
  }

  /** A cancelling teardown has started or is waited for, or the session or the engine is being stopped. */
  predicate Cancelling(s: State) {
    || Session in s.started || Engine in s.started
    || exists a :: Cancels(a) && (AwaitedIn(a) == s.stage || a in s.started)
  }

  predicate AllCancelled(absent: set<Action>, started: seq<Action>) {
    forall b :: Cancels(b) ==> b in started || b in absent
  }

  /**
   * Every given teardown that can cancel work has been started before the sequence waits for any of them, and before
   * the session or the engine is stopped: they start together.
   */
  lemma CancelsBeforeWaiting(absent: set<Action>, es: seq<Event>)
    requires absent <= OPTIONAL && Legal(Initial(absent), es)
    ensures var s := After(Initial(absent), es);
            Cancelling(s) ==> AllCancelled(absent, s.started)
  {
    InitialValid(absent);
    RunKeeps(Initial(absent), es);
    SameAbsent(Initial(absent), es);
    StartedTogether(After(Initial(absent), es));
  }

  lemma CancelRank(a: Action)
    requires Cancels(a)
    ensures StartRank(a) == 1 && Rank(AwaitedIn(a)) > 1
  {
  }

  lemma StartedTogether(s: State)
    requires StartsValid(s)
    ensures Cancelling(s) ==> AllCancelled(s.absent, s.started)
  {
    forall a | Cancels(a) ensures StartRank(a) == 1 && Rank(AwaitedIn(a)) > 1 {
      CancelRank(a);
    }
  }

  lemma {:induction false} SameAbsent(s: State, es: seq<Event>)
    ensures After(s, es).absent == s.absent
    decreases |es|
  {
    if es != [] {
      SameAbsent(Step(s, es[0]), es[1..]);
    }
  }

  // ---------------------------------------------------------------- it ends

  /** Once everything that was started has settled, some wrapper or the sequence itself can go on. */
  lemma NeverStuck(s: State)
    requires Valid(s) && s.fate == Going && s.stage != NotCalled && s.stage != Finished
    requires forall a :: a in s.started ==> a in s.settled
    ensures CanContinue(s) || exists a :: Enabled(s, Reacted(a))
  {
    if !CanContinue(s) {
      var a :| AwaitedIn(a) == s.stage && a !in s.done;
      assert StartRank(a) < Rank(AwaitedIn(a));
      assert Enabled(s, Reacted(a));
    }
  }

  function Left(s: State): nat {
    11 - Rank(s.stage) + |ALL - s.settled| + |ALL - s.done|
  }

  /** Every settling, every reaction and every segment brings the end closer. */
  lemma Progress(s: State, e: Event)
    requires Valid(s) && Enabled(s, e)
    ensures Left(Step(s, e)) < Left(s)
            || (Left(Step(s, e)) == Left(s) && (e.TickEnded? || (e.Called? && s.stage != NotCalled)))
  {
    match e
    case Settled(a, fails) => InAll(a); Shrinks(s.settled, a);
    case Reacted(a) => InAll(a); Shrinks(s.done, a);
    case Called(gateThrows) => CallProgress(s, gateThrows);
    case Continued => ContinueProgress(s);
    case TickEnded =>
  }

  lemma Shrinks(before: set<Action>, a: Action)
    ensures |ALL - (before + {a})| == |ALL - before| - if a in before || a !in ALL then 0 else 1
  {
    assert ALL - (before + {a}) == (ALL - before) - {a};
  }

  lemma InAll(a: Action)
    ensures a in ALL
  {
  }

  lemma ContinueProgress(s: State)
    requires s.stage != Finished && s.rejected == {}
    ensures Left(Continue(s)) < Left(s)
  {
    NextRank(s.absent, s.stage);
    ContinueMoves(s);
    FurtherIsLess(s, Continue(s));
  }

  lemma ContinueMoves(s: State)
    requires s.rejected == {}
    ensures var t := Continue(s); t.done == s.done && t.settled == s.settled && t.stage == Next(s.absent, s.stage)
  {
  }

  lemma FurtherIsLess(s: State, t: State)
    requires t.done == s.done && t.settled == s.settled && Rank(t.stage) > Rank(s.stage)
    ensures Left(t) < Left(s)
  {
  }

  lemma CallProgress(s: State, gateThrows: bool)
    requires s.rejected == {}
    ensures if s.stage == NotCalled then Left(Call(s, gateThrows)) < Left(s) else Call(s, gateThrows) == s
  {
    if s.stage == NotCalled {
      var t := Begin(s, gateThrows);
      Shrinks(s.done, GateShell);
      Shrinks(s.settled, GateShell);
      if Flush in s.absent {
        ContinueProgress(t);
      }
    }
  }

  /** At the end everything that was given has run once, and every failure has been reported once. */
  lemma Complete(s: State)
    requires Valid(s) && s.stage == Finished
    ensures forall a :: a in s.done && (a in s.absent || a in s.started)
    ensures Distinct(s.started) && Distinct(s.reported) && forall a :: a in s.reported <==> a in s.failed
  {
    forall a ensures a in s.done && (a in s.absent || a in s.started) {
      assert Rank(AwaitedIn(a)) < 11 && StartRank(a) < 11;
    }
  }

  lemma NextEvent(s: State) returns (e: Event)
    requires Valid(s) && s.fate == Going && s.stage != NotCalled && s.stage != Finished
    ensures Enabled(s, e) && !e.TickEnded? && !e.Called?
  {
    if a :| a in s.started && a !in s.settled {
      e := Settled(a, false);
    } else if CanContinue(s) {
      e := Continued;
    } else {
      NeverStuck(s);
      var a :| Enabled(s, Reacted(a));
      e := Reacted(a);
    }
  }

  lemma {:induction false} FinishingRun(s: State) returns (es: seq<Event>)
    requires Valid(s) && s.fate == Going && s.stage != NotCalled
    ensures Legal(s, es) && After(s, es).stage == Finished
    decreases Left(s)
  {
    if s.stage == Finished {
      es := [];
    } else {
      var e := NextEvent(s);
      StepKeeps(s, e);
      Progress(s, e);
      StaysCalled(s, e);
      var rest := FinishingRun(Step(s, e));
      es := [e] + rest;
      assert es[1..] == rest;
    }
  }

  lemma StaysCalled(s: State, e: Event)
    requires Valid(s) && Enabled(s, e) && s.stage != NotCalled
    ensures Step(s, e).stage != NotCalled && (!e.TickEnded? && s.fate == Going ==> Step(s, e).fate == Going)
  {
    StepKeeps(s, e);
  }

  /** From every state of a called shutdown the end can be reached, unless the process has crashed. */
  lemma CanFinishIff(s: State)
    requires Valid(s) && s.stage != NotCalled
    ensures (exists es :: Legal(s, es) && After(s, es).stage == Finished) <==> s.fate != Crashed
  {
    if s.fate == Going {
      var es := FinishingRun(s);
    } else {
      forall es | Legal(s, es) ensures After(s, es).stage != Finished {
        NothingAfterCrash(s, es);
      }
    }
  }

  lemma NothingAfterCrash(s: State, es: seq<Event>)
    requires s.fate == Crashed && Legal(s, es)
    ensures es == []
  {
  }

  // ---------------------------------------------------------------- failures

  /** A tick ends somewhere in the run while the gate's rejection has no handler. */
  ghost predicate EndsTickUnhandled(s: State, es: seq<Event>)
    decreases |es|
  {
    es != [] && ((es[0] == TickEnded && IsUnhandled(s)) || EndsTickUnhandled(Step(s, es[0]), es[1..]))
  }

  /** That, and nothing else, cuts a shutdown short. */
  lemma {:induction false} CrashIff(s: State, es: seq<Event>)
    requires Valid(s) && s.fate == Going && Legal(s, es)
    ensures After(s, es).fate != Going <==> EndsTickUnhandled(s, es)
    decreases |es|
  {
    if es != [] {
      var t := Step(s, es[0]);
      StepKeeps(s, es[0]);
      if t.fate == Going {
        CrashIff(t, es[1..]);
      } else {
        NothingAfterCrash(t, es[1..]);
      }
    }
  }

  /** The gate's promise rejects at some point of the run before it is awaited. */
  ghost predicate GateRejectsEarly(s: State, es: seq<Event>)
    decreases |es|
  {
    es != [] && ((es[0] == Settled(GateShell, true) && Rank(s.stage) < Rank(AwaitShell))
                 || GateRejectsEarly(Step(s, es[0]), es[1..]))
  }

  /** So a gate that does not reject before it is awaited, and may throw at once, cuts nothing short. */
  lemma {:induction false} LateGateIsSafe(s: State, es: seq<Event>)
    requires Valid(s) && s.fate == Going && !IsUnhandled(s) && Legal(s, es) && !GateRejectsEarly(s, es)
    ensures After(s, es).fate == Going
    decreases |es|
  {
    if es != [] {
      StepKeeps(s, es[0]);
      StaysHandled(s, es[0]);
      LateGateIsSafe(Step(s, es[0]), es[1..]);
    }
  }

  lemma StaysHandled(s: State, e: Event)
    requires Valid(s) && s.fate == Going && !IsUnhandled(s) && Enabled(s, e)
    requires e == Settled(GateShell, true) ==> Rank(s.stage) >= Rank(AwaitShell)
    ensures !IsUnhandled(Step(s, e)) && Step(s, e).fate == Going
  {
    StepKeeps(s, e);
    if e.Continued? { NextRank(s.absent, s.stage); }
  }

  /** And one that does can: nothing runs any more after the tick of its rejection. */
  lemma EarlyRejectionSkipsTheRest(s: State)
    requires Valid(s) && s.fate == Going && s.stage != NotCalled && Rank(s.stage) < Rank(AwaitShell)
    requires GateShell !in s.settled
    ensures var es := [Settled(GateShell, true), TickEnded];
            && Legal(s, es) && After(s, es).fate == Crashed && Database !in After(s, es).started
            && After(s, es).started == s.started && forall more :: Legal(After(s, es), more) ==> more == []
  {
    var t := Settle(s, GateShell, true);
    assert StartRank(GateShell) < Rank(s.stage) && StartRank(Database) >= Rank(s.stage);
    assert [Settled(GateShell, true), TickEnded][1..] == [TickEnded] && After(t, [TickEnded]) == EndTick(t);
    forall more | Legal(EndTick(t), more) ensures more == [] {
      NothingAfterCrash(EndTick(t), more);
    }
  }

  /** Such a run from the start. */
  lemma CrashingRun()
    ensures var es := [Called(false), Settled(GateShell, true), TickEnded];
            Legal(Initial({}), es) && After(Initial({}), es).fate == Crashed
              && After(Initial({}), es).started == [GateShell, Flush]
  {
    var s := Call(Initial({}), false);
    InitialValid({});
    CallKeeps(Initial({}), false);
    EarlyRejectionSkipsTheRest(s);
    assert [Called(false), Settled(GateShell, true), TickEnded][1..] == [Settled(GateShell, true), TickEnded];
  }

  /** Two runs that differ only in which actions failed. */
  predicate SameButFailure(e: Event, f: Event) {
    e == f || (e.Settled? && f.Settled? && e.a == f.a)
  }

  predicate Alike(s: State, t: State) {
    s.absent == t.absent && s.stage == t.stage && s.started == t.started && s.settled == t.settled && s.done == t.done
  }

  /** As long as neither run is cut short, a failure never skips, adds or reorders a step. */
  lemma {:induction false} FailuresSkipNothing(s: State, t: State, es: seq<Event>, fs: seq<Event>)
    requires Valid(s) && Valid(t) && Alike(s, t) && Legal(s, es)
    requires |es| == |fs| && forall i :: 0 <= i < |es| ==> SameButFailure(es[i], fs[i])
    requires s.fate == t.fate == Going && !EndsTickUnhandled(s, es) && !EndsTickUnhandled(t, fs)
    ensures Legal(t, fs) && Alike(After(s, es), After(t, fs))
    ensures After(s, es).fate == After(t, fs).fate == Going
    decreases |es|
  {
    if es != [] {
      assert SameButFailure(es[0], fs[0]);
      StepKeeps(s, es[0]);
      AlikeStep(s, t, es[0], fs[0]);
      StepKeeps(t, fs[0]);
      FailuresSkipNothing(Step(s, es[0]), Step(t, fs[0]), es[1..], fs[1..]);
    }
  }

  lemma AlikeStep(s: State, t: State, e: Event, f: Event)
    requires s.rejected == t.rejected == {} && Alike(s, t) && SameButFailure(e, f) && Enabled(s, e)
    requires s.fate == t.fate == Going
    requires !(e == TickEnded && IsUnhandled(s)) && !(f == TickEnded && IsUnhandled(t))
    ensures Enabled(t, f) && Alike(Step(s, e), Step(t, f)) && Step(s, e).fate == Step(t, f).fate == Going
  {
    if e.Continued? { AlikeContinue(s, t); } else if e.Called? { AlikeCall(s, t, e.gateThrows); }
  }

  lemma AlikeContinue(s: State, t: State)
    requires s.rejected == t.rejected == {} && Alike(s, t) && s.fate == t.fate
    ensures Alike(Continue(s), Continue(t)) && Continue(s).fate == Continue(t).fate == s.fate
  {
  }

  lemma AlikeCall(s: State, t: State, gateThrows: bool)
    requires s.rejected == t.rejected == {} && Alike(s, t) && s.fate == t.fate
    ensures Alike(Call(s, gateThrows), Call(t, gateThrows))
    ensures Call(s, gateThrows).fate == Call(t, gateThrows).fate == s.fate
  {
    if s.stage == NotCalled && Flush in s.absent { AlikeContinue(Begin(s, gateThrows), Begin(t, gateThrows)); }
  }
}
