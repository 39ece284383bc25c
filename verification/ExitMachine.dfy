/** `createServerExitCoordinator` of src/server/shutdown.ts, on top of the shutdown. */
module ExitMachine {
  import opened Options
  import opened ShutdownMachine

  /** How far a `then` callback of the coordinator has come. */
  datatype Closure = Queued | InShutdown | Exited

  /** `requests` are the codes asked for so far, and `closures` the callbacks queued for them. */
  datatype Process = Process(
    shutdown: State, requests: seq<int>, requestedCode: int, exitPromise: bool, closures: seq<Closure>, exits: seq<int>)

  function Initial(absent: set<Action>): Process {
    Process(ShutdownMachine.Initial(absent), [], 0, false, [], [])
  }

  function Max(a: int, b: int): int {
    if a >= b then a else b
  }

  datatype Event = Request(code: int) | Run(k: nat, gateThrows: bool) | Shutdown(e: ShutdownMachine.Event)
    | Exit(k: nat)

  /** Nothing keeps a callback from running but its place in its own code. */
  predicate Enabled(p: Process, e: Event) {
    && p.shutdown.fate != Crashed
    && match e
       case Request(_) => true
       case Run(k, _) => k < |p.closures| && p.closures[k] == Queued
       case Shutdown(e) => ShutdownMachine.Enabled(p.shutdown, e)
       case Exit(k) => k < |p.closures| && p.closures[k] == InShutdown && p.shutdown.stage == Finished
  }

  /** Once there is a promise a request only raises the code. */
  function Ask(p: Process, code: int): Process {
    var asked := p.(requests := p.requests + [code], requestedCode := Max(p.requestedCode, code));
    if asked.exitPromise then asked else asked.(exitPromise := true, closures := asked.closures + [Queued])
  }

  function Step(p: Process, e: Event): Process
    requires Enabled(p, e)
  {
    match e
    case Request(code) => Ask(p, code)
    case Run(k, gateThrows) => p.(shutdown := Call(p.shutdown, gateThrows), closures := p.closures[k := InShutdown])
    case Shutdown(e) => p.(shutdown := ShutdownMachine.Step(p.shutdown, e))
    case Exit(k) => p.(exits := p.exits + [p.requestedCode], closures := p.closures[k := Exited])
  }

  /** `m` is zero or one of the codes, and none of them is greater. */
  ghost predicate IsHighest(codes: seq<int>, m: int) {
    (m == 0 || m in codes) && m >= 0 && forall i :: 0 <= i < |codes| ==> codes[i] <= m
  }

  /** The callbacks that have called `exit`. */
  function Exits(closures: seq<Closure>): nat {
    if closures == [] then 0 else (if closures[0] == Exited then 1 else 0) + Exits(closures[1..])
  }

  ghost predicate Valid(p: Process) {
    && ShutdownMachine.Valid(p.shutdown)
    && IsHighest(p.requests, p.requestedCode)
    && (p.exitPromise <==> p.requests != [])
    && |p.closures| == (if p.exitPromise then 1 else 0)
    && |p.exits| == Exits(p.closures)
    && (p.closures != [] && p.closures[0] == Exited ==> p.shutdown.stage == Finished)
  }

  lemma {:induction false} ExitsUpdate(closures: seq<Closure>, k: nat, c: Closure)
    requires k < |closures| && closures[k] != Exited
    ensures Exits(closures[k := c]) == Exits(closures) + if c == Exited then 1 else 0
  {
    if k > 0 {
      assert closures[k := c][1..] == closures[1..][k - 1 := c];
      ExitsUpdate(closures[1..], k - 1, c);
    } else {
      assert closures[k := c][1..] == closures[1..];
    }
  }

  lemma {:induction false} ExitsAppended(closures: seq<Closure>)
    ensures Exits(closures + [Queued]) == Exits(closures)
  {
    if closures != [] {
      assert (closures + [Queued])[1..] == closures[1..] + [Queued];
      ExitsAppended(closures[1..]);
    } else {
      assert (closures + [Queued])[1..] == [];
    }
  }

  lemma StepKeeps(p: Process, e: Event)
    requires Valid(p) && Enabled(p, e)
    ensures Valid(Step(p, e))
  {
    match e
    case Request(code) =>
      var t := Step(p, e);
      assert forall i :: 0 <= i < |p.requests| ==> t.requests[i] == p.requests[i];
      assert t.requests[|p.requests|] == code;
      ExitsAppended(p.closures);
    case Run(k, gateThrows) =>
      ShutdownMachine.StepKeeps(p.shutdown, Called(gateThrows));
      ExitsUpdate(p.closures, k, InShutdown);
    case Shutdown(e) =>
      ShutdownMachine.StepKeeps(p.shutdown, e);
      FinishedStays(p.shutdown, e);
    case Exit(k) => ExitsUpdate(p.closures, k, Exited);
  }

  lemma FinishedStays(s: State, e: ShutdownMachine.Event)
    requires s.rejected == {}
    ensures s.stage == Finished ==> ShutdownMachine.Step(s, e).stage == Finished
  {
  }

  ghost predicate Legal(p: Process, es: seq<Event>)
    decreases |es|
  {
    es != [] ==> Enabled(p, es[0]) && Legal(Step(p, es[0]), es[1..])
  }

  function After(p: Process, es: seq<Event>): Process
    requires Legal(p, es)
    decreases |es|
  {
    if es == [] then p else After(Step(p, es[0]), es[1..])
  }

  lemma {:induction false} RunKeeps(p: Process, es: seq<Event>)
    requires Valid(p) && Legal(p, es)
    ensures Valid(After(p, es)) && p.exits <= After(p, es).exits
    decreases |es|
  {
    if es != [] {
      StepKeeps(p, es[0]);
      RunKeeps(Step(p, es[0]), es[1..]);
    }
  }

  /** However often an exit is requested, one callback is queued, and it exits at most once. */
  lemma ExitsOnce(absent: set<Action>, es: seq<Event>)
    requires absent <= OPTIONAL && Legal(Initial(absent), es)
    ensures var p := After(Initial(absent), es); |p.exits| <= |p.closures| <= 1
  {
    ShutdownMachine.InitialValid(absent);
    RunKeeps(Initial(absent), es);
    var p := After(Initial(absent), es);
    if |p.closures| == 1 { assert p.closures[1..] == []; }
  }

  /** The process exits once, after the whole shutdown, with the highest code requested up to then. */
  lemma ExitsWithHighest(absent: set<Action>, before: seq<Event>, k: nat, later: seq<Event>)
    requires absent <= OPTIONAL && Legal(Initial(absent), before) && Enabled(After(Initial(absent), before), Exit(k))
    requires Legal(Step(After(Initial(absent), before), Exit(k)), later)
    ensures var p := After(Initial(absent), before);
            && p.shutdown.stage == Finished && IsHighest(p.requests, p.requestedCode)
            && After(Step(p, Exit(k)), later).exits == [p.requestedCode]
  {
    var p := After(Initial(absent), before);
    ShutdownMachine.InitialValid(absent);
    RunKeeps(Initial(absent), before);
    ExitsAtMost(p.closures);
    StepKeeps(p, Exit(k));
    RunKeeps(Step(p, Exit(k)), later);
    ExitsAtMost(After(Step(p, Exit(k)), later).closures);
  }

  lemma ExitsAtMost(closures: seq<Closure>)
    requires |closures| <= 1
    ensures Exits(closures) == if closures != [] && closures[0] == Exited then 1 else 0
  {
    if closures != [] { assert closures[1..] == []; }
  }

  lemma {:induction false} ShutdownRuns(p: Process, es: seq<ShutdownMachine.Event>) returns (run: seq<Event>)
    requires ShutdownMachine.Legal(p.shutdown, es) && Alive(p.shutdown, es)
    ensures Legal(p, run) && After(p, run) == p.(shutdown := ShutdownMachine.After(p.shutdown, es))
    decreases |es|
  {
    if es == [] {
      run := [];
    } else {
      var rest := ShutdownRuns(Step(p, Shutdown(es[0])), es[1..]);
      run := [Shutdown(es[0])] + rest;
      assert run[1..] == rest;
    }
  }

  /** No state that the shutdown goes through has crashed. */
  ghost predicate Alive(s: State, es: seq<ShutdownMachine.Event>)
    decreases |es|
  {
    es != [] ==> s.fate != Crashed && Alive(ShutdownMachine.Step(s, es[0]), es[1..])
  }

  lemma {:induction false} LegalIsAlive(s: State, es: seq<ShutdownMachine.Event>)
    requires ShutdownMachine.Legal(s, es)
    ensures Alive(s, es)
    decreases |es|
  {
    if es != [] {
      LegalIsAlive(ShutdownMachine.Step(s, es[0]), es[1..]);
    }
  }

  lemma {:induction false} RunsOn(p: Process, a: seq<Event>, b: seq<Event>)
    requires Legal(p, a) && Legal(After(p, a), b)
    ensures Legal(p, a + b) && After(p, a + b) == After(After(p, a), b)
    decreases |a|
  {
    if a == [] {
      assert a + b == b;
    } else {
      assert (a + b)[0] == a[0] && (a + b)[1..] == a[1..] + b;
      RunsOn(Step(p, a[0]), a[1..], b);
    }
  }

  lemma OneEvent(p: Process, e: Event)
    requires Enabled(p, e)
    ensures Legal(p, [e]) && After(p, [e]) == Step(p, e)
  {
    assert [e][1..] == [];
  }

  /** From wherever an exit has been requested and the process has not crashed, it can still exit. */
  lemma CanExit(p: Process) returns (es: seq<Event>)
    requires Valid(p) && p.requests != [] && p.shutdown.fate != Crashed
    ensures Legal(p, es) && After(p, es).exits != []
  {
    if p.closures[0] == Exited {
      ExitsAtMost(p.closures);
      es := [];
    } else if p.closures[0] == Queued {
      OneEvent(p, Run(0, false));
      StepKeeps(p, Run(0, false));
      var rest := FinishAndExit(Step(p, Run(0, false)));
      RunsOn(p, [Run(0, false)], rest);
      es := [Run(0, false)] + rest;
    } else {
      es := FinishOrCall(p);
    }
  }

  lemma FinishOrCall(p: Process) returns (es: seq<Event>)
    requires Valid(p) && p.closures == [InShutdown] && p.shutdown.fate != Crashed
    ensures Legal(p, es) && After(p, es).exits != []
  {
    if p.shutdown.stage == NotCalled {
      var called := Shutdown(Called(false));
      OneEvent(p, called);
      StepKeeps(p, called);
      ShutdownMachine.CallKeeps(p.shutdown, false);
      var rest := FinishAndExit(Step(p, called));
      RunsOn(p, [called], rest);
      es := [called] + rest;
    } else {
      es := FinishAndExit(p);
    }
  }

  lemma FinishAndExit(p: Process) returns (es: seq<Event>)
    requires Valid(p) && p.closures == [InShutdown] && p.shutdown.stage != NotCalled && p.shutdown.fate == Going
    ensures Legal(p, es) && After(p, es).exits != []
  {
    var events := ShutdownMachine.FinishingRun(p.shutdown);
    LegalIsAlive(p.shutdown, events);
    var run := ShutdownRuns(p, events);
    var done := After(p, run);
    ShutdownMachine.RunKeeps(p.shutdown, events);
    OneEvent(done, Exit(0));
    RunsOn(p, run, [Exit(0)]);
    es := run + [Exit(0)];
  }
}
