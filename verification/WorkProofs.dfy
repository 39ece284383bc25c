/** What a coordinator reports, told from the calls and reactions alone. */
module WorkProofs {
  import opened Options
  import opened WorkMachine

  /** What an observer of the calls knows: the operations and whether they block, the holds, and what is active. */
  datatype Log = Log(blocks: seq<bool>, holds: nat, active: Option<nat>, stopped: bool, started: bool)

  const NOTHING := Log([], 0, None, false, false)

  function Noted(log: Log, e: Event): Log {
    match e
    case Run(blocks) => log.(blocks := log.blocks + [blocks])
    case StartStartup => if log.started then log else log.(blocks := log.blocks + [true], started := true)
    case Prepare =>
      if log.active.Some? || log.stopped then log else log.(holds := log.holds + 1, active := Some(log.holds))
    case Release(h) => if log.active == Some(h) then log.(active := None) else log
    case Stop => log.(active := None, stopped := true)
    case _ => log
  }

  function NotedAll(log: Log, es: seq<Event>): Log
    decreases |es|
  {
    if es == [] then log else NotedAll(Noted(log, es[0]), es[1..])
  }

  /** Blocking work arrives under hold `h`: a call of `run`, or a woken operation that was created by such a call. */
  predicate Brings(log: Log, e: Event, h: nat) {
    && log.active == Some(h)
    && match e
       case Run(blocks) => blocks
       case Wake(op) => op < |log.blocks| && log.blocks[op]
       case _ => false
  }

  predicate BringsIn(log: Log, es: seq<Event>, h: nat)
    decreases |es|
  {
    es != [] && (Brings(log, es[0], h) || BringsIn(Noted(log, es[0]), es[1..], h))
  }

  ghost predicate Agrees(log: Log, s: State) {
    && |log.blocks| == |s.ops| && (forall k :: 0 <= k < |s.ops| ==> s.ops[k].blocks == log.blocks[k])
    && log.holds == |s.holds| && log.active == s.admissionHold
    && log.stopped == !s.accepting && log.started == s.startupWork.Some?
  }

  lemma StepAgrees(log: Log, s: State, e: Event)
    requires Valid(s) && Enabled(s, e) && Agrees(log, s)
    ensures Agrees(Noted(log, e), Step(s, e))
  {
  }

  /** One step sets the flag of the active hold exactly if it brings blocking work, and resets none. */
  lemma StepReports(log: Log, s: State, e: Event, h: nat)
    requires Valid(s) && Enabled(s, e) && Agrees(log, s) && h < |Step(s, e).holds|
    ensures Step(s, e).holds[h].incoming <==> (h < |s.holds| && s.holds[h].incoming) || Brings(log, e, h)
  {
  }

  /** Under a hold `run` of blocking work sets its flag, and `run` of other work leaves it as it was. */
  lemma RunReports(s: State, h: nat, blocks: bool)
    requires Valid(s) && s.admissionHold == Some(h)
    ensures h < |s.holds| && h < |Step(s, Run(blocks)).holds|
    ensures Step(s, Run(blocks)).holds[h].incoming == (s.holds[h].incoming || blocks)
  {
  }

  lemma {:induction false} RunAgrees(log: Log, s: State, es: seq<Event>)
    requires Valid(s) && Legal(s, es) && Agrees(log, s)
    ensures Agrees(NotedAll(log, es), After(s, es))
    decreases |es|
  {
    if es != [] {
      StepKeeps(s, es[0]);
      StepAgrees(log, s, es[0]);
      RunAgrees(Noted(log, es[0]), Step(s, es[0]), es[1..]);
    }
  }

  lemma HoldsGrow(s: State, e: Event)
    requires Valid(s) && Enabled(s, e)
    ensures |s.holds| <= |Step(s, e).holds|
  {
  }

  lemma {:induction false} ReportsInRun(log: Log, s: State, es: seq<Event>, h: nat)
    requires Valid(s) && Legal(s, es) && Agrees(log, s) && h < |After(s, es).holds|
    ensures After(s, es).holds[h].incoming <==> (h < |s.holds| && s.holds[h].incoming) || BringsIn(log, es, h)
    decreases |es|
  {
    if es != [] {
      var t := Step(s, es[0]);
      StepKeeps(s, es[0]);
      StepAgrees(log, s, es[0]);
      HoldsGrow(s, es[0]);
      ReportsInRun(Noted(log, es[0]), t, es[1..], h);
      if h < |t.holds| { StepReports(log, s, es[0], h); } else { NotActiveYet(log, es[0], h); }
    }
  }

  lemma NotActiveYet(log: Log, e: Event, h: nat)
    requires h >= log.holds && (log.active.Some? ==> log.active.value < log.holds)
    ensures !Brings(log, e, h)
  {
  }

  /**
   * After every run: operation `k` blocks exactly if the `k`-th creating call says so, the startup always, and a
   * preparation reports incoming work exactly if blocking work was called or woken while its hold was active.
   */
  lemma IncomingFromEvents(es: seq<Event>, h: nat)
    requires Legal(INITIAL, es) && h < |After(INITIAL, es).holds|
    ensures Agrees(NotedAll(NOTHING, es), After(INITIAL, es))
    ensures After(INITIAL, es).holds[h].incoming <==> BringsIn(NOTHING, es, h)
  {
    RunAgrees(NOTHING, INITIAL, es);
    ReportsInRun(NOTHING, INITIAL, es, h);
  }
}
