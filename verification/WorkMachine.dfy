/**
 * src/main/main-process-work-coordinator.ts over src/core/inspector-activity/async-work-tracker.ts,
 * as a machine whose steps are the calls and the promise reactions.
 */
module WorkMachine {
  import opened Options

  /** Where an operation passed to `run` or `startStartup` is. */
  datatype Fate = Waiting(hold: nat) | Running | Done | Refused

  datatype Op = Op(blocks: bool, fate: Fate)

  datatype Hold = Hold(incoming: bool, released: bool)

  /** A drain loop awaits a snapshot of the work in flight, and ends when it finds none. */
  datatype Drain = Awaiting(snapshot: set<nat>) | Drained

  /** Operation `op` was queued under hold `hold`. */
  datatype Arrival = Arrival(op: nat, hold: nat)

  datatype State = State(
    ops: seq<Op>,
    holds: seq<Hold>,
    admissionHold: Option<nat>,
    accepting: bool,
    inFlight: set<nat>,
    startupWork: Option<nat>,
    startupDidSettle: bool,
    startupResolutions: nat,
    drains: seq<Drain>,
    finalDrain: Option<nat>,
    admitted: seq<nat>,
    arrivals: seq<Arrival>)

  const INITIAL := State([], [], None, true, {}, None, false, 0, [], None, [], [])

  // ---------------------------------------------------------------- steps

  /** `tracker.run` for operation `id`. */
  function Track(s: State, id: nat): State
    requires id < |s.ops|
  {
    if !s.accepting then s.(ops := s.ops[id := s.ops[id].(fate := Refused)])
    else s.(ops := s.ops[id := s.ops[id].(fate := Running)], inFlight := s.inFlight + {id},
            admitted := s.admitted + [id])
  }

  /** `run` for operation `id`, on its first call or when its hold has been released. */
  function Enter(s: State, id: nat): State
    requires id < |s.ops| && (s.admissionHold.Some? ==> s.admissionHold.value < |s.holds|)
  {
    match s.admissionHold
    case None => Track(s, id)
    case Some(h) =>
      s.(holds := s.holds[h := s.holds[h].(incoming := s.holds[h].incoming || s.ops[id].blocks)],
         ops := s.ops[id := s.ops[id].(fate := Waiting(h))],
         arrivals := s.arrivals + [Arrival(id, h)])
  }

  function Add(s: State, blocks: bool): State {
    s.(ops := s.ops + [Op(blocks, Refused)])
  }

  function AfterRelease(s: State, h: nat): State
    requires h < |s.holds|
  {
    s.(admissionHold := if s.admissionHold == Some(h) then None else s.admissionHold,
       holds := s.holds[h := s.holds[h].(released := true)])
  }

  function SettleStartup(s: State): State {
    if s.startupDidSettle then s else s.(startupDidSettle := true, startupResolutions := s.startupResolutions + 1)
  }

  function StartDrain(s: State): State {
    s.(drains := s.drains + [if s.inFlight == {} then Drained else Awaiting(s.inFlight)])
  }

  function AfterStop(s: State): State
    requires s.admissionHold.Some? ==> s.admissionHold.value < |s.holds|
  {
    var s1 := if s.admissionHold.Some? then AfterRelease(s, s.admissionHold.value) else s;
    var s2 := if s1.startupWork.None? then SettleStartup(s1) else s1;
    if s2.finalDrain.Some? then s2 else StartDrain(s2.(accepting := false)).(finalDrain := Some(|s2.drains|))
  }

  datatype Event =
    | Run(blocks: bool)            // a call of `run`
    | Wake(op: nat)                // the reaction of a queued operation to its hold's release
    | Finish(op: nat)              // a running operation settles and leaves the tracker
    | Prepare                      // `prepareForPowerAction`
    | Release(hold: nat)           // `release` of any hold ever handed out
    | DrainWork                    // `drain` of a preparation
    | DrainTurn(drain: nat)        // a drain loop continues: its whole snapshot has settled
    | StartStartup
    | StartupFinally               // the `finally` of the startup work
    | Stop                         // `stopAndDrain`

  ghost predicate Enabled(s: State, e: Event) {
    match e
    case Wake(id) =>
      && id < |s.ops| && s.ops[id].fate.Waiting?
      && s.ops[id].fate.hold < |s.holds| && s.holds[s.ops[id].fate.hold].released
    case Finish(id) => id < |s.ops| && s.ops[id].fate == Running
    case Release(h) => h < |s.holds|
    case DrainTurn(d) => d < |s.drains| && s.drains[d].Awaiting? && s.drains[d].snapshot !! s.inFlight
    case StartupFinally =>
      && s.startupWork.Some? && s.startupWork.value < |s.ops|
      && s.ops[s.startupWork.value].fate in {Done, Refused}
    case _ => true
  }

  ghost function Step(s: State, e: Event): State
    requires Valid(s) && Enabled(s, e)
  {
    match e
    case Run(blocks) => Enter(Add(s, blocks), |s.ops|)
    case Wake(id) => Enter(s, id)
    case Finish(id) => s.(ops := s.ops[id := s.ops[id].(fate := Done)], inFlight := s.inFlight - {id})
    case Prepare =>
      if s.admissionHold.Some? || !s.accepting then s
      else s.(holds := s.holds + [Hold(false, false)], admissionHold := Some(|s.holds|))
    case Release(h) => AfterRelease(s, h)
    case DrainWork => StartDrain(s)
    case DrainTurn(d) => s.(drains := s.drains[d := if s.inFlight == {} then Drained else Awaiting(s.inFlight)])
    case StartStartup =>
      if s.startupWork.Some? then s else Track(Add(s, true), |s.ops|).(startupWork := Some(|s.ops|))
    case StartupFinally => SettleStartup(s)
    case Stop => AfterStop(s)
  }

  // ---------------------------------------------------------------- invariant

  predicate HoldsValid(s: State) {
    && (s.admissionHold.Some? ==> s.admissionHold.value < |s.holds| && s.accepting)
    && forall h :: 0 <= h < |s.holds| ==> (s.holds[h].released <==> s.admissionHold != Some(h))
  }

  ghost predicate OpsValid(s: State) {
    && (forall id :: 0 <= id < |s.ops| && s.ops[id].fate.Waiting? ==> s.ops[id].fate.hold < |s.holds|)
    && (forall id: nat :: id in s.inFlight <==> id < |s.ops| && s.ops[id].fate == Running)
  }

  ghost predicate AdmittedValid(s: State) {
    && (forall id: nat :: id in s.admitted <==> id < |s.ops| && s.ops[id].fate in {Running, Done})
    && (forall i, j :: 0 <= i < j < |s.admitted| ==> s.admitted[i] != s.admitted[j])
  }

  predicate Blocking(s: State, h: nat, k: nat) {
    k < |s.arrivals| && s.arrivals[k].hold == h && s.arrivals[k].op < |s.ops| && s.ops[s.arrivals[k].op].blocks
  }

  /** Some blocking operation was queued under `h`. */
  ghost predicate BlockedArrival(s: State, h: nat) {
    exists k :: Blocking(s, h, k)
  }

  ghost predicate ArrivalsValid(s: State) {
    && (forall k :: 0 <= k < |s.arrivals| ==> s.arrivals[k].op < |s.ops| && s.arrivals[k].hold < |s.holds|)
    && (forall h :: 0 <= h < |s.holds| ==> (s.holds[h].incoming <==> BlockedArrival(s, h)))
  }

  predicate StartupValid(s: State) {
    && (s.startupWork.Some? ==>
          s.startupWork.value < |s.ops| && s.ops[s.startupWork.value].fate in {Running, Done, Refused})
    && s.startupResolutions == (if s.startupDidSettle then 1 else 0)
  }

  predicate DrainsValid(s: State) {
    && (s.finalDrain.Some? <==> !s.accepting)
    && (s.finalDrain.Some? ==> s.finalDrain.value < |s.drains|)
    && (s.finalDrain.Some? && s.drains[s.finalDrain.value].Drained? ==> s.inFlight == {})
  }

  ghost predicate Valid(s: State) {
    HoldsValid(s) && OpsValid(s) && AdmittedValid(s) && ArrivalsValid(s) && StartupValid(s) && DrainsValid(s)
  }

  /** Arrivals only depend on the log, and on which operations block. */
  lemma SameArrivals(s: State, t: State)
    requires ArrivalsValid(s) && t.arrivals == s.arrivals && |t.ops| >= |s.ops| && |t.holds| >= |s.holds|
    requires forall id :: 0 <= id < |s.ops| ==> t.ops[id].blocks == s.ops[id].blocks
    requires forall h :: 0 <= h < |s.holds| ==> t.holds[h].incoming == s.holds[h].incoming
    requires forall h :: |s.holds| <= h < |t.holds| ==> !t.holds[h].incoming
    ensures ArrivalsValid(t)
  {
    forall h | 0 <= h < |t.holds| ensures t.holds[h].incoming <==> BlockedArrival(t, h) {
      assert forall k :: Blocking(s, h, k) <==> Blocking(t, h, k);
    }
  }

  lemma AddKeeps(s: State, blocks: bool)
    requires Valid(s)
    ensures Valid(Add(s, blocks))
  {
    SameArrivals(s, Add(s, blocks));
  }

  lemma TrackKeeps(s: State, id: nat)
    requires Valid(s) && id < |s.ops| && s.ops[id].fate !in {Running, Done} && s.startupWork != Some(id)
    ensures Valid(Track(s, id))
  {
    SameArrivals(s, Track(s, id));
  }

  lemma QueueLogs(s: State, id: nat)
    requires Valid(s) && id < |s.ops| && s.admissionHold.Some?
    ensures ArrivalsValid(Enter(s, id))
  {
    var t, h0 := Enter(s, id), s.admissionHold.value;
    forall h | 0 <= h < |t.holds| ensures t.holds[h].incoming <==> BlockedArrival(t, h) {
      assert forall k :: k != |s.arrivals| ==> (Blocking(s, h, k) <==> Blocking(t, h, k));
      assert Blocking(t, h, |s.arrivals|) <==> h == h0 && s.ops[id].blocks;
      assert !Blocking(s, h, |s.arrivals|);
    }
  }

  lemma EnterKeeps(s: State, id: nat)
    requires Valid(s) && id < |s.ops| && s.ops[id].fate !in {Running, Done} && s.startupWork != Some(id)
    ensures Valid(Enter(s, id))
  {
    if s.admissionHold.None? {
      TrackKeeps(s, id);
    } else {
      QueueLogs(s, id);
    }
  }

  lemma FinishKeeps(s: State, id: nat)
    requires Valid(s) && Enabled(s, Finish(id))
    ensures Valid(Step(s, Finish(id)))
  {
    SameArrivals(s, Step(s, Finish(id)));
  }

  lemma PrepareKeeps(s: State)
    requires Valid(s)
    ensures Valid(Step(s, Prepare))
  {
    if s.admissionHold.None? && s.accepting {
      var t := Step(s, Prepare);
      assert forall k :: !Blocking(s, |s.holds|, k);
      SameArrivals(s, t);
    }
  }

  lemma ReleaseKeeps(s: State, h: nat)
    requires Valid(s) && h < |s.holds|
    ensures Valid(AfterRelease(s, h))
  {
    SameArrivals(s, AfterRelease(s, h));
  }

  lemma StopKeeps(s: State)
    requires Valid(s)
    ensures Valid(AfterStop(s))
  {
    if s.admissionHold.Some? {
      ReleaseKeeps(s, s.admissionHold.value);
    }
    SameArrivals(s, AfterStop(s));
  }

  lemma StepKeeps(s: State, e: Event)
    requires Valid(s) && Enabled(s, e)
    ensures Valid(Step(s, e))
  {
    match e
    case Run(blocks) => AddKeeps(s, blocks); EnterKeeps(Add(s, blocks), |s.ops|);
    case Wake(id) => EnterKeeps(s, id);
    case Finish(id) => FinishKeeps(s, id);
    case Prepare => PrepareKeeps(s);
    case Release(h) => ReleaseKeeps(s, h);
    case DrainWork => SameArrivals(s, Step(s, e));
    case DrainTurn(_) => SameArrivals(s, Step(s, e));
    case StartStartup =>
      if s.startupWork.None? {
        AddKeeps(s, true);
        TrackKeeps(Add(s, true), |s.ops|);
        SameArrivals(s, Step(s, e));
      }
    case StartupFinally => SameArrivals(s, Step(s, e));
    case Stop => StopKeeps(s);
  }

  // ---------------------------------------------------------------- runs

  ghost predicate Legal(s: State, es: seq<Event>)
    requires Valid(s)
    decreases |es|
  {
    es != [] ==> Enabled(s, es[0]) && (StepKeeps(s, es[0]); Legal(Step(s, es[0]), es[1..]))
  }

  ghost function After(s: State, es: seq<Event>): (t: State)
    requires Valid(s) && Legal(s, es)
    ensures Valid(t)
    decreases |es|
  {
    if es == [] then s else (StepKeeps(s, es[0]); After(Step(s, es[0]), es[1..]))
  }

  predicate Admitted(f: Fate) {
    f == Running || f == Done
  }

  /** In every reachable state an operation waits on a hold, was admitted exactly once, or was refused. */
  lemma EveryOperationAccountedFor(es: seq<Event>, id: nat)
    requires Legal(INITIAL, es) && id < |After(INITIAL, es).ops|
    ensures var t := After(INITIAL, es);
            match t.ops[id].fate
            case Waiting(h) => h < |t.holds| && id !in t.admitted && (t.holds[h].released || t.admissionHold == Some(h))
            case Refused => id !in t.admitted
            case _ => multiset(t.admitted)[id] == 1
  {
    var t := After(INITIAL, es);
    if Admitted(t.ops[id].fate) {
      OccursOnce(t.admitted, id);
    }
  }

  lemma {:induction false} OccursOnce(ids: seq<nat>, id: nat)
    requires id in ids && forall i, j :: 0 <= i < j < |ids| ==> ids[i] != ids[j]
    ensures multiset(ids)[id] == 1
  {
    var i :| 0 <= i < |ids| && ids[i] == id;
    assert ids == ids[..i] + [id] + ids[i + 1..];
    assert id !in ids[..i] && id !in ids[i + 1..];
  }

  /** What can become of an operation in one step: nothing is dropped, revived or started twice. */
  predicate FateMoves(before: Fate, after: Fate) {
    match before
    case Waiting(_) => true
    case Running => Admitted(after)
    case Done => after == Done
    case Refused => after == Refused
  }

  lemma FatesMove(s: State, e: Event, id: nat)
    requires Valid(s) && Enabled(s, e) && id < |s.ops|
    ensures id < |Step(s, e).ops| && FateMoves(s.ops[id].fate, Step(s, e).ops[id].fate)
    ensures s.ops[id].fate.Waiting? && Step(s, e).ops[id].fate != s.ops[id].fate ==> e == Wake(id)
  {
  }

  /** Under a hold nothing is admitted through `run`: the startup work alone goes straight to the tracker. */
  lemma HoldAdmitsOnlyStartup(s: State, e: Event)
    requires Valid(s) && Enabled(s, e) && s.admissionHold.Some?
    ensures Step(s, e).admitted != s.admitted <==> e == StartStartup && s.startupWork.None?
  {
    if e == StartStartup && s.startupWork.None? {
      assert |Step(s, e).admitted| == |s.admitted| + 1;
    }
  }

  /** And it does: preparing for a power action before startup has begun does not keep startup from running. */
  lemma StartupRunsUnderHold()
    ensures var es := [Prepare, Run(true), StartStartup];
            && Legal(INITIAL, es)
            && var t := After(INITIAL, es);
               t.admissionHold == Some(0) && t.ops[0].fate == Waiting(0) && t.ops[1].fate == Running
                 && t.inFlight == {1}
  {
    StepKeeps(INITIAL, Prepare);
    var s := Step(INITIAL, Prepare);
    StepKeeps(s, Run(true));
    var t := Step(s, Run(true));
    StepKeeps(t, StartStartup);
    LegalThree(INITIAL, Prepare, Run(true), StartStartup);
  }

  lemma LegalThree(s: State, a: Event, b: Event, c: Event)
    requires Valid(s) && Enabled(s, a) && Valid(Step(s, a)) && Enabled(Step(s, a), b)
    requires Valid(Step(Step(s, a), b)) && Enabled(Step(Step(s, a), b), c) && Valid(Step(Step(Step(s, a), b), c))
    ensures Legal(s, [a, b, c]) && After(s, [a, b, c]) == Step(Step(Step(s, a), b), c)
  {
    LegalFirst(Step(Step(s, a), b), c, []);
    LegalFirst(Step(s, a), b, [c] + []);
    LegalFirst(s, a, [b] + ([c] + []));
    assert [a] + ([b] + ([c] + [])) == [a, b, c];
  }

  lemma LegalFirst(s: State, e: Event, rest: seq<Event>)
    requires Valid(s) && Enabled(s, e) && Valid(Step(s, e)) && Legal(Step(s, e), rest)
    ensures Legal(s, [e] + rest) && After(s, [e] + rest) == After(Step(s, e), rest)
  {
    assert ([e] + rest)[1..] == rest;
  }

  /** Once drained under a hold, the tracker stays empty while the hold lasts and startup does not begin. */
  lemma {:induction false} HeldDrainLasts(s: State, h: nat, es: seq<Event>)
    requires Valid(s) && s.admissionHold == Some(h) && s.inFlight == {} && Legal(s, es)
    requires forall i :: 0 <= i < |es| ==> es[i] !in {StartStartup, Stop, Release(h)}
    ensures After(s, es).inFlight == {} && After(s, es).admissionHold == Some(h) && After(s, es).admitted == s.admitted
    decreases |es|
  {
    if es != [] {
      assert es[0] !in {StartStartup, Stop, Release(h)};
      HoldAdmitsOnlyStartup(s, es[0]);
      StepKeeps(s, es[0]);
      HeldDrainLasts(Step(s, es[0]), h, es[1..]);
    }
  }

  /** Releasing a hold that is not the active one, late or again, changes nothing at all. */
  lemma StaleReleaseIsInert(s: State, h: nat)
    requires Valid(s) && h < |s.holds| && s.admissionHold != Some(h)
    ensures AfterRelease(s, h) == s
  {
    assert s.holds[h := s.holds[h].(released := true)] == s.holds;
  }

  /** A preparation reports incoming work exactly when a blocking operation was queued under its hold. */
  lemma IncomingIff(es: seq<Event>, h: nat)
    requires Legal(INITIAL, es) && h < |After(INITIAL, es).holds|
    ensures var t := After(INITIAL, es); t.holds[h].incoming <==> BlockedArrival(t, h)
  {
    assert ArrivalsValid(After(INITIAL, es));
  }

  /** Released operations can always go on: into the tracker, into a newer hold, or into refusal. */
  lemma ReleasedGoesOn(s: State, id: nat)
    requires Valid(s) && id < |s.ops| && s.ops[id].fate.Waiting? && s.admissionHold != Some(s.ops[id].fate.hold)
    ensures Enabled(s, Wake(id))
    ensures Step(s, Wake(id)).ops[id].fate
         == if s.admissionHold.Some? then Waiting(s.admissionHold.value) else if s.accepting then Running else Refused
  {
  }

  /** The startup barrier is resolved once, by the end of the startup work or by a stop that came before it. */
  lemma BarrierCause(s: State, e: Event)
    requires Valid(s) && Enabled(s, e)
    ensures s.startupDidSettle ==> Step(s, e).startupDidSettle && Step(s, e).startupResolutions == s.startupResolutions
    ensures !s.startupDidSettle && Step(s, e).startupDidSettle ==>
              || (e == StartupFinally && s.ops[s.startupWork.value].fate in {Done, Refused})
              || (e == Stop && s.startupWork.None?)
    ensures Step(s, e).startupResolutions <= 1
  {
    StepKeeps(s, e);
  }

  /** After a stop nothing is admitted any more; once its drain is over, nothing ever runs again. */
  lemma {:induction false} StopIsFinal(s: State, es: seq<Event>)
    requires Valid(s) && !s.accepting && Legal(s, es)
    ensures var t := After(s, es);
            && !t.accepting && t.admissionHold.None? && t.admitted == s.admitted && t.inFlight <= s.inFlight
            && t.finalDrain == s.finalDrain
    decreases |es|
  {
    if es != [] {
      StepKeeps(s, es[0]);
      StopIsFinal(Step(s, es[0]), es[1..]);
    }
  }

  /** When the final drain is over, so are the startup work and every admitted operation. */
  lemma DrainedMeansSettled(s: State, id: nat)
    requires Valid(s) && s.finalDrain.Some? && s.drains[s.finalDrain.value].Drained? && id in s.admitted
    ensures s.ops[id].fate == Done
  {
  }
}
