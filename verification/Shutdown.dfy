/** The closures of src/server/shutdown.ts, as objects whose fields are the captured variables. */
module Shutdown {
  import opened Options
  import opened ShutdownMachine
  import ExitMachine

  /** `resume` runs the code between two awaits. */
  class ServerShutdown {
    const absent: set<Action>
    var stage: Stage
    var started: seq<Action>
    var settled: set<Action>
    var failed: set<Action>
    var done: set<Action>
    var reported: seq<Action>
    var fate: Fate

    constructor (absent: set<Action>)
      requires absent <= OPTIONAL
      ensures View() == Initial(absent) && Valid(View())
    {
      this.absent, stage, started, settled, failed, done, reported, fate := absent, NotCalled, [], absent, {}, absent,
        [], Going;
      new;
      InitialValid(absent);
    }

    /** No wrapper ever rejects. */
    ghost function View(): State
      reads this
    {
      State(absent, stage, started, settled, failed, done, {}, reported, fate)
    }

    method StartAction(a: Action)
      modifies this`started
      ensures started == old(started) + if a in absent then [] else [a]
    {
      if a !in absent { started := started + [a]; }
    }

    method Call(gateThrows: bool)
      requires Valid(View()) && fate == Going
      modifies this
      ensures View() == ShutdownMachine.Call(old(View()), gateThrows) && Valid(View())
    {
      CallKeeps(View(), gateThrows);
      if stage != NotCalled { return; }
      started := started + [GateShell];
      if gateThrows {
        settled, done, failed := settled + {GateShell}, done + {GateShell}, failed + {GateShell};
        reported := reported + [GateShell];
      }
      stage := AwaitFlush;
      if Flush in absent {
        StartCancellation();
      } else {
        started := started + [Flush];
        assert old(started) + [GateShell] + [Flush] == old(started) + [GateShell, Flush];
      }
    }

    /** Every teardown that can cancel something is started before any is awaited. */
    method StartCancellation()
      requires stage == AwaitFlush
      modifies this`stage, this`started
      ensures View() == Continue(old(View()))
    {
      ghost var before := started;
      started := started + [Polling, Ingress, Bridge, Producers, DevWatcher, PluginHost];
      StartAction(PluginNetwork);
      started := started + [Magnet, GeoIP, SpeedLimit, Tracker];
      assert started == before + Starts(absent, AwaitFlush);
      stage := AwaitTracker;
    }

    method Settle(a: Action, fails: bool)
      requires Valid(View()) && Enabled(View(), Settled(a, fails))
      modifies this`settled, this`failed
      ensures View() == ShutdownMachine.Settle(old(View()), a, fails) && Valid(View())
    {
      SettleKeeps(View(), a, fails);
      settled := settled + {a};
      if fails { failed := failed + {a}; }
    }

    /** `safely` after its `await`: a failure is caught and reported, and the wrapper is over either way. */
    method React(a: Action)
      requires Valid(View()) && Enabled(View(), Reacted(a))
      modifies this`done, this`reported
      ensures View() == ShutdownMachine.React(old(View()), a) && Valid(View())
    {
      ReactKeeps(View(), a);
      if a in failed { reported := reported + [a]; }
      done := done + {a};
    }

    /** What Node does when the microtasks are over. */
    method EndTick()
      requires Valid(View()) && fate == Going
      modifies this`fate
      ensures View() == ShutdownMachine.EndTick(old(View())) && Valid(View())
    {
      ShutdownMachine.StepKeeps(View(), TickEnded);
      if GateShell in failed && GateShell !in done && Rank(stage) < Rank(AwaitShell) { fate := Crashed; }
    }

    method Resume()
      requires Valid(View()) && CanContinue(View())
      modifies this
      ensures View() == Continue(old(View())) && Valid(View())
    {
      ContinueKeeps(View());
      match stage {
        case AwaitFlush => StartCancellation();
        case AwaitTracker => stage := AwaitBridge;
        case AwaitBridge =>
          started := started + [Session, Engine];
          stage := AwaitAll;
        case AwaitAll =>
          if FinalizeFs in absent {
            stage := AwaitShell;
          } else {
            started := started + [FinalizeFs];
            stage := AwaitFinalizeFs;
          }
        case AwaitFinalizeFs => stage := AwaitShell;
        case AwaitShell =>
          started := started + [Activity];
          stage := AwaitActivity;
        case AwaitActivity =>
          started := started + [Stats];
          stage := AwaitStats;
        case AwaitStats =>
          started := started + [Database];
          stage := AwaitDatabase;
        case AwaitDatabase =>
          StartAction(Ownership);
          stage := AwaitOwnership;
        case AwaitOwnership => stage := Finished;
      }
    }
  }

  class ExitCoordinator {
    const shutdown: ServerShutdown
    var requestedCode: int
    var exitPromise: bool
    var closures: seq<ExitMachine.Closure>
    var exits: seq<int>
    ghost var requests: seq<int>

    constructor (shutdown: ServerShutdown)
      requires shutdown.stage == NotCalled && shutdown.View() == Initial(shutdown.absent) && shutdown.absent <= OPTIONAL
      ensures this.shutdown == shutdown && View() == ExitMachine.Initial(shutdown.absent)
    {
      this.shutdown, requestedCode, exitPromise, closures, exits, requests := shutdown, 0, false, [], [], [];
    }

    ghost function View(): ExitMachine.Process
      reads this, shutdown
    {
      ExitMachine.Process(shutdown.View(), requests, requestedCode, exitPromise, closures, exits)
    }

    method Request(code: int)
      requires ExitMachine.Valid(View()) && ExitMachine.Enabled(View(), ExitMachine.Request(code))
      modifies this
      ensures View() == ExitMachine.Step(old(View()), ExitMachine.Request(code)) && ExitMachine.Valid(View())
    {
      ExitMachine.StepKeeps(View(), ExitMachine.Request(code));
      requestedCode := ExitMachine.Max(requestedCode, code);
      requests := requests + [code];
      if exitPromise { return; }
      exitPromise := true;
      closures := closures + [ExitMachine.Queued];
    }

    /** A queued callback runs up to its `await`. */
    method Run(k: nat, gateThrows: bool)
      requires ExitMachine.Valid(View()) && ExitMachine.Enabled(View(), ExitMachine.Run(k, gateThrows))
      modifies this, shutdown
      ensures View() == ExitMachine.Step(old(View()), ExitMachine.Run(k, gateThrows)) && ExitMachine.Valid(View())
    {
      ExitMachine.StepKeeps(View(), ExitMachine.Run(k, gateThrows));
      closures := closures[k := ExitMachine.InShutdown];
      shutdown.Call(gateThrows);
    }

    /** What follows `await shutdown()`. */
    method Exit(k: nat)
      requires ExitMachine.Valid(View()) && ExitMachine.Enabled(View(), ExitMachine.Exit(k))
      modifies this`exits, this`closures
      ensures View() == ExitMachine.Step(old(View()), ExitMachine.Exit(k)) && ExitMachine.Valid(View())
    {
      ExitMachine.StepKeeps(View(), ExitMachine.Exit(k));
      exits := exits + [requestedCode];
      closures := closures[k := ExitMachine.Exited];
    }
  }
}
