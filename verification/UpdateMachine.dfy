/** The update checker of src/server/app-update-service.ts as a generation-fenced state machine. */
module UpdateMachine {
  import opened Options
  import opened Texts
  import opened Semver
  import opened UpdateChannel

  datatype Phase = Idle | Checking | Available | UpToDate | Error

  datatype Status = Status(phase: Phase, checkedAt: Option<nat>, availableVersion: Option<Text>,
                           releaseName: Option<Text>)

  function Snapshot(phase: Phase): Status {
    Status(phase, None, None, None)
  }

  /** A check whose metadata has not arrived, with the generation and channel it captured. */
  datatype Flight = Flight(generation: nat, channel: Channel)

  /** `Loaded` is metadata that passes its schema; every other ending of the fetch is `Failed`. */
  datatype Outcome = Loaded(version: Text, name: Option<Text>) | Failed

  datatype Settled = Fulfilled | Rejected

  datatype Service = Service(
    status: Status,
    channel: Channel,
    generation: nat,
    pending: Option<nat>,     // the generation of the promise that callers share
    controller: Option<nat>,  // the generation its abort signal belongs to
    flights: seq<Flight>,
    aborted: set<nat>,
    emitted: seq<Status>)

  function Initial(channel: Channel): Service {
    Service(Snapshot(Idle), channel, 0, None, None, [], {}, [])
  }

  function Transition(s: Service, status: Status): Service {
    s.(status := status, emitted := s.emitted + [status])
  }

  function AfterSetChannel(s: Service, channel: Channel): Service {
    if channel == s.channel then s
    else
      var aborted := if s.controller.Some? then s.aborted + {s.controller.value} else s.aborted;
      Transition(s.(channel := channel, generation := s.generation + 1, aborted := aborted, pending := None),
                 Snapshot(Idle))
  }

  function AfterCheck(s: Service): Service {
    if s.pending.Some? then s
    else
      var g := s.generation + 1;
      Transition(s.(generation := g, pending := Some(g), controller := Some(g),
                    flights := s.flights + [Flight(g, s.channel)]),
                 Snapshot(Checking))
  }

  /** What a check that is still current makes of its metadata. */
  function Judge(current: Text, channel: Channel, outcome: Outcome, now: nat): Status {
    if outcome.Failed? || !IsVersionAllowedForChannel(outcome.version, channel)
      || !IsVersionAllowedForChannel(current, Beta)
    then Snapshot(Error)
    else if SemverGt(outcome.version, current) then Status(Available, Some(now), Some(outcome.version), outcome.name)
    else Status(UpToDate, Some(now), None, None)
  }

  function Without(flights: seq<Flight>, i: nat): seq<Flight>
    requires i < |flights|
  {
    flights[..i] + flights[i + 1..]
  }

  /** The continuation of flight `i` runs. */
  function AfterComplete(current: Text, s: Service, i: nat, outcome: Outcome, now: nat): Service
    requires i < |s.flights|
  {
    var f, landed := s.flights[i], s.(flights := Without(s.flights, i));
    if f.generation != s.generation then landed
    else Transition(landed, Judge(current, f.channel, outcome, now)).(pending := None, controller := None)
  }

  // ---------------------------------------------------------------- invariant

  predicate IsOffer(current: Text, channel: Channel, status: Status) {
    && status.availableVersion.Some?
    && IsVersionAllowedForChannel(status.availableVersion.value, channel)
    && IsVersionAllowedForChannel(current, Beta)
    && Compare(status.availableVersion.value, current) > 0
  }

  ghost predicate Valid(current: Text, s: Service) {
    && (s.status.phase == Checking <==> s.pending.Some?)
    && (s.pending.Some? ==> s.pending.value == s.generation && s.controller == s.pending)
    && (s.pending.Some? ==> exists i :: 0 <= i < |s.flights| && s.flights[i] == Flight(s.generation, s.channel))
    && (s.pending.None? ==> forall i :: 0 <= i < |s.flights| ==> s.flights[i].generation < s.generation)
    && (forall i :: 0 <= i < |s.flights| ==> s.flights[i].generation <= s.generation)
    && (forall i, j :: 0 <= i < j < |s.flights| ==> s.flights[i].generation != s.flights[j].generation)
    && (if s.status.phase == Available then IsOffer(current, s.channel, s.status) else s.status.availableVersion.None?)
    && (s.emitted != [] ==> s.emitted[|s.emitted| - 1] == s.status)
  }

  datatype Event = SetChannel(channel: Channel) | Check | Complete(i: nat, outcome: Outcome, now: nat)

  /** One step; a completion needs its flight. */
  function Step(current: Text, s: Service, e: Event): Service {
    match e
    case SetChannel(c) => AfterSetChannel(s, c)
    case Check => AfterCheck(s)
    case Complete(i, outcome, now) => if i < |s.flights| then AfterComplete(current, s, i, outcome, now) else s
  }

  function Run(current: Text, s: Service, es: seq<Event>): Service
    decreases |es|
  {
    if es == [] then s else Run(current, Step(current, s, es[0]), es[1..])
  }

  lemma SetChannelKeeps(current: Text, s: Service, c: Channel)
    requires Valid(current, s)
    ensures Valid(current, AfterSetChannel(s, c))
  {
  }

  lemma CheckKeeps(current: Text, s: Service)
    requires Valid(current, s)
    ensures Valid(current, AfterCheck(s))
  {
    if s.pending.None? {
      var t := AfterCheck(s);
      assert t.flights[|s.flights|] == Flight(t.generation, t.channel);
    }
  }

  lemma WithoutIndex(flights: seq<Flight>, i: nat)
    requires i < |flights|
    ensures forall j :: 0 <= j < |Without(flights, i)| ==> Without(flights, i)[j] == flights[if j < i then j else j + 1]
  {
  }

  lemma StaleKeeps(current: Text, s: Service, i: nat)
    requires Valid(current, s) && i < |s.flights| && s.flights[i].generation != s.generation
    ensures Valid(current, s.(flights := Without(s.flights, i)))
  {
    WithoutIndex(s.flights, i);
    var t := s.(flights := Without(s.flights, i));
    if s.pending.Some? {
      var j :| 0 <= j < |s.flights| && s.flights[j] == Flight(s.generation, s.channel);
      var k := if j < i then j else j - 1;
      assert t.flights[k] == Flight(t.generation, t.channel);
    }
  }

  lemma CurrentFlightIsPending(current: Text, s: Service, i: nat)
    requires Valid(current, s) && i < |s.flights| && s.flights[i].generation == s.generation
    ensures s.pending == Some(s.generation) && s.flights[i].channel == s.channel
    ensures forall j :: 0 <= j < |s.flights| && j != i ==> s.flights[j].generation < s.generation
  {
    var j :| 0 <= j < |s.flights| && s.flights[j] == Flight(s.generation, s.channel);
    assert i == j;
  }

  lemma CurrentKeeps(current: Text, s: Service, i: nat, outcome: Outcome, now: nat)
    requires Valid(current, s) && i < |s.flights| && s.flights[i].generation == s.generation
    ensures Valid(current, AfterComplete(current, s, i, outcome, now))
  {
    CurrentFlightIsPending(current, s, i);
    WithoutIndex(s.flights, i);
  }

  lemma StepKeeps(current: Text, s: Service, e: Event)
    requires Valid(current, s)
    ensures Valid(current, Step(current, s, e))
  {
    match e
    case SetChannel(c) => SetChannelKeeps(current, s, c);
    case Check => CheckKeeps(current, s);
    case Complete(i, outcome, now) =>
      if i < |s.flights| {
        if s.flights[i].generation != s.generation {
          StaleKeeps(current, s, i);
        } else {
          CurrentKeeps(current, s, i, outcome, now);
        }
      }
  }

  /** In every reachable state the phase is `checking` exactly while a check is pending, and an offer is a good one. */
  lemma {:induction false} RunKeeps(current: Text, s: Service, es: seq<Event>)
    requires Valid(current, s)
    ensures Valid(current, Run(current, s, es))
    decreases |es|
  {
    if es != [] {
      StepKeeps(current, s, es[0]);
      RunKeeps(current, Step(current, s, es[0]), es[1..]);
    }
  }

  lemma Reachable(current: Text, channel: Channel, es: seq<Event>)
    ensures var s := Run(current, Initial(channel), es);
            && (s.status.phase == Checking <==> s.pending.Some?)
            && (s.status.phase == Available ==> IsOffer(current, s.channel, s.status))
            && forall i, j :: 0 <= i < j < |s.flights| ==> s.flights[i].generation != s.flights[j].generation
  {
    RunKeeps(current, Initial(channel), es);
  }

  // ---------------------------------------------------------------- staleness

  /**
   * A flight left behind by `SetChannel` never affects anything but the list of flights, whatever happens in between.
   */
  predicate Stale(s: Service, g: nat) {
    g < s.generation
  }

  lemma {:induction false} StaysStale(current: Text, s: Service, es: seq<Event>, g: nat)
    requires Stale(s, g)
    ensures Stale(Run(current, s, es), g)
    decreases |es|
  {
    if es != [] {
      StaysStale(current, Step(current, s, es[0]), es[1..], g);
    }
  }

  lemma StaleCompletionIsInert(current: Text, s: Service, c: Channel, es: seq<Event>, g: nat, i: nat, outcome: Outcome,
                               now: nat)
    requires Valid(current, s) && c != s.channel && g <= s.generation
    requires var t := Run(current, AfterSetChannel(s, c), es); i < |t.flights| && t.flights[i].generation == g
    ensures var t := Run(current, AfterSetChannel(s, c), es);
            AfterComplete(current, t, i, outcome, now) == t.(flights := Without(t.flights, i))
  {
    StaysStale(current, AfterSetChannel(s, c), es, g);
  }

  lemma {:induction false} RunConcat(current: Text, s: Service, es: seq<Event>, fs: seq<Event>)
    ensures Run(current, s, es + fs) == Run(current, Run(current, s, es), fs)
    decreases |es|
  {
    if es == [] {
      assert es + fs == fs;
    } else {
      assert (es + fs)[0] == es[0] && (es + fs)[1..] == es[1..] + fs;
      RunConcat(current, Step(current, s, es[0]), es[1..], fs);
    }
  }

  lemma OneMore(current: Text, s: Service, es: seq<Event>, e: Event)
    ensures Run(current, s, es + [e]) == Step(current, Run(current, s, es), e)
  {
    var t := Run(current, s, es);
    RunConcat(current, s, es, [e]);
    assert Run(current, t, [e]) == Run(current, Step(current, t, e), [e][1..]);
  }

  /**
   * After any run the choice of another channel leaves the service idle on it, with nothing pending and the signal of
   * a pending check aborted; the choice of the same channel changes nothing.
   */
  lemma ChannelChangeIsIdle(current: Text, channel: Channel, es: seq<Event>, c: Channel)
    ensures var s, t := Run(current, Initial(channel), es), Run(current, Initial(channel), es + [SetChannel(c)]);
            if c == s.channel then t == s
            else
              && t.channel == c && t.status == Status(Idle, None, None, None) && t.pending.None?
              && t.emitted == s.emitted + [t.status] && t.flights == s.flights
              && (s.pending.Some? ==> s.pending.value in t.aborted)
              && forall i :: 0 <= i < |t.flights| ==> t.flights[i].generation < t.generation
  {
    OneMore(current, Initial(channel), es, SetChannel(c));
    RunKeeps(current, Initial(channel), es);
  }

  /**
   * A check that was under way when the channel changed does nothing when it comes back, whatever was done in between
   * and whatever it brings: the status stays, nothing is emitted, and a check started since stays pending.
   */
  lemma AbandonedCheckIsInert(current: Text, channel: Channel, before: seq<Event>, c: Channel, es: seq<Event>, i: nat,
                              outcome: Outcome, now: nat)
    requires c != Run(current, Initial(channel), before).channel
    requires var t := Run(current, Initial(channel), before + [SetChannel(c)] + es);
             i < |t.flights| && t.flights[i].generation <= Run(current, Initial(channel), before).generation
    ensures var t := Run(current, Initial(channel), before + [SetChannel(c)] + es);
            Run(current, Initial(channel), before + [SetChannel(c)] + es + [Complete(i, outcome, now)])
            == t.(flights := t.flights[..i] + t.flights[i + 1..])
  {
    var s, t := Run(current, Initial(channel), before),
      Run(current, Initial(channel), before + [SetChannel(c)] + es);
    OneMore(current, Initial(channel), before, SetChannel(c));
    RunConcat(current, Initial(channel), before + [SetChannel(c)], es);
    OneMore(current, Initial(channel), before + [SetChannel(c)] + es, Complete(i, outcome, now));
    RunKeeps(current, Initial(channel), before);
    StaleCompletionIsInert(current, s, c, es, t.flights[i].generation, i, outcome, now);
  }

  /** Whatever changes the status on completion was fetched for the channel that is selected now, and ends the check. */
  lemma CompletionIsForPresentChannel(current: Text, s: Service, i: nat, outcome: Outcome, now: nat)
    requires Valid(current, s) && i < |s.flights|
    requires AfterComplete(current, s, i, outcome, now).emitted != s.emitted
    ensures s.flights[i] == Flight(s.generation, s.channel) && s.pending.Some?
    ensures var t := AfterComplete(current, s, i, outcome, now);
            t.pending.None? && t.controller.None? && t.generation == s.generation && t.emitted == s.emitted + [t.status]
    ensures var status := AfterComplete(current, s, i, outcome, now).status;
            var accepted := outcome.Loaded? && IsVersionAllowedForChannel(outcome.version, s.channel)
                            && IsVersionAllowedForChannel(current, Beta);
            && (status.phase == Error <==> !accepted)
            && (status.phase == Available <==> accepted && Compare(outcome.version, current) > 0)
            && (status.phase == UpToDate <==> accepted && Compare(outcome.version, current) <= 0)
            && (status.phase == Available ==>
                  status.availableVersion == Some(outcome.version) && status.releaseName == outcome.name)
            && (status.phase != Available ==> status.availableVersion == None && status.releaseName == None)
            && status.checkedAt == if accepted then Some(now) else None
  {
    CurrentFlightIsPending(current, s, i);
  }

  /**
   * A check without a pending one starts a flight of its own, under a generation that no flight had, for the present
   * channel; with a pending one it starts nothing.
   */
  lemma CheckStarts(current: Text, s: Service)
    requires Valid(current, s)
    ensures var t := Step(current, s, Check);
            if s.pending.Some? then t == s
            else
              && t.pending == t.controller == Some(t.generation) && t.channel == s.channel
              && t.flights == s.flights + [Flight(t.generation, s.channel)]
              && (forall i :: 0 <= i < |s.flights| ==> s.flights[i].generation != t.generation)
              && t.status == Status(Checking, None, None, None) && t.emitted == s.emitted + [t.status]
  {
    CheckKeeps(current, s);
  }

  /** A pending check can always finish: its flight is still there, and finishing it ends the checking phase. */
  lemma PendingCanFinish(current: Text, s: Service, outcome: Outcome, now: nat)
    requires Valid(current, s) && s.pending.Some?
    ensures exists i :: 0 <= i < |s.flights| && AfterComplete(current, s, i, outcome, now).pending.None?
  {
    var i :| 0 <= i < |s.flights| && s.flights[i] == Flight(s.generation, s.channel);
    assert AfterComplete(current, s, i, outcome, now).pending.None?;
  }
}
