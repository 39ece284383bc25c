/**
 * One event channel of src/preload/preload.ts: the eager replay buffer, the shared native listener and its callbacks.
 * Events are named by their position among all events sent on the channel.
 */
module ChannelMachine {
  import opened Options

  /** `Latest` channels keep one event, `Buffered` ones up to 32, `Plain` ones have no eager listener. */
  datatype Kind = Plain | Buffered | Latest

  datatype Listener = Eager | Shared

  /** The replay a subscription was given: pending, skipped, or made when `at` events had been sent. */
  datatype Replay = NoReplay | Pending | Skipped | Made(at: nat)

  /** A subscription of `callback`, made after `from` events; a removed one ended at `until`. */
  datatype Sub = Sub(callback: nat, active: bool, receivedLive: bool, from: nat, until: nat,
                     buffered: seq<nat>, replay: Replay, log: seq<nat>)

  datatype Channel = Channel(
    kind: Kind,
    sent: nat,
    native: seq<Listener>,        // what is attached to the IPC channel
    buffer: Option<seq<nat>>,
    callbacks: seq<nat>,          // registered subscriptions, in insertion order
    subs: seq<Sub>,               // all subscriptions ever made
    microtasks: seq<nat>)         // subscriptions with a queued replay

  const LIMIT: nat := 32

  function Initial(kind: Kind): Channel {
    Channel(kind, 0, if kind.Plain? then [] else [Eager], None, [], [], [])
  }

  // ---------------------------------------------------------------- steps

  function Push(kind: Kind, buffer: Option<seq<nat>>, event: nat): seq<nat> {
    if kind.Latest? then [event]
    else
      var bucket := if buffer.None? then [] else buffer.value;
      (if |bucket| >= LIMIT then bucket[1..] else bucket) + [event]
  }

  function DeliverLive(sub: Sub, event: nat): Sub {
    if sub.active then sub.(receivedLive := true, log := sub.log + [event]) else sub
  }

  /** The shared listener calls the registered callbacks; they do not subscribe or remove while it does. */
  function Broadcast(subs: seq<Sub>, callbacks: seq<nat>, event: nat): (r: seq<Sub>)
    ensures |r| == |subs|
  {
    seq(|subs|, i requires 0 <= i < |subs| => if i in callbacks then DeliverLive(subs[i], event) else subs[i])
  }

  /** Whatever is attached gets the event. */
  function Heard(c: Channel): Channel {
    var d := if Eager in c.native then c.(buffer := Some(Push(c.kind, c.buffer, c.sent))) else c;
    if Shared in d.native then d.(subs := Broadcast(d.subs, d.callbacks, c.sent)) else d
  }

  /** An event arrives. */
  function AfterSend(c: Channel): Channel {
    Heard(c).(sent := c.sent + 1)
  }

  function Registered(c: Channel, callback: nat): Option<nat> {
    Find(c.subs, c.callbacks, callback)
  }

  function Find(subs: seq<Sub>, callbacks: seq<nat>, callback: nat): (r: Option<nat>)
    ensures r.Some? ==> r.value in callbacks && r.value < |subs| && subs[r.value].callback == callback
    ensures r.None? ==> forall i :: i in callbacks && i < |subs| ==> subs[i].callback != callback
  {
    if callbacks == [] then None
    else if callbacks[0] < |subs| && subs[callbacks[0]].callback == callback then Some(callbacks[0])
    else Find(subs, callbacks[1..], callback)
  }

  function Attach(native: seq<Listener>, callbacks: seq<nat>): seq<Listener> {
    if callbacks == [] then Detach(native, Eager) + [Shared] else native
  }

  function Detach(native: seq<Listener>, l: Listener): seq<Listener> {
    if native == [] then [] else if native[0] == l then native[1..] else [native[0]] + Detach(native[1..], l)
  }

  /** A new subscription takes over the channel, if it is the first, and the buffer, if there is one. */
  function AfterRegister(c: Channel, callback: nat): Channel {
    var id, replays := |c.subs|, c.buffer.Some? && c.buffer.value != [];
    var sub := Sub(callback, true, false, c.sent, 0, if replays then c.buffer.value else [],
                   if replays then Pending else NoReplay, []);
    c.(native := Attach(c.native, c.callbacks),
       callbacks := c.callbacks + [id],
       subs := c.subs + [sub],
       buffer := if replays then None else c.buffer,
       microtasks := if replays then c.microtasks + [id] else c.microtasks)
  }

  function AfterOn(c: Channel, callback: nat): Channel {
    if Registered(c, callback).Some? then c else AfterRegister(c, callback)
  }

  function Drop(ids: seq<nat>, id: nat): seq<nat> {
    if ids == [] then [] else if ids[0] == id then ids[1..] else [ids[0]] + Drop(ids[1..], id)
  }

  function AfterRemove(c: Channel, id: nat): Channel
    requires id < |c.subs|
  {
    if !c.subs[id].active then c
    else
      var callbacks := Drop(c.callbacks, id);
      c.(subs := c.subs[id := c.subs[id].(active := false, until := c.sent)],
         callbacks := callbacks,
         native := if callbacks == [] then Detach(c.native, Shared) else c.native)
  }

  /** The queued replay of the first microtask. */
  function AfterMicrotask(c: Channel): Channel
    requires c.microtasks != [] && c.microtasks[0] < |c.subs|
  {
    var id, sub := c.microtasks[0], c.subs[c.microtasks[0]];
    var replayed := if !sub.active || (c.kind.Latest? && sub.receivedLive) then sub.(replay := Skipped)
                    else sub.(replay := Made(c.sent), log := sub.log + sub.buffered);
    c.(subs := c.subs[id := replayed], microtasks := c.microtasks[1..])
  }

  datatype Event = Send | On(callback: nat) | Remove(id: nat) | Microtask

  predicate Enabled(c: Channel, e: Event) {
    match e
    case Remove(id) => id < |c.subs|
    case Microtask => c.microtasks != [] && c.microtasks[0] < |c.subs|
    case _ => true
  }

  function Step(c: Channel, e: Event): Channel
    requires Enabled(c, e)
  {
    match e
    case Send => AfterSend(c)
    case On(callback) => AfterOn(c, callback)
    case Remove(id) => AfterRemove(c, id)
    case Microtask => AfterMicrotask(c)
  }

  // ---------------------------------------------------------------- invariant

  function Range(a: nat, b: nat): (r: seq<nat>)
    requires a <= b
    ensures |r| == b - a && forall i :: 0 <= i < |r| ==> r[i] == a + i
  {
    seq(b - a, i requires 0 <= i < b - a => a + i)
  }

  function Kept(kind: Kind): nat {
    match kind case Plain => 0 case Buffered => LIMIT case Latest => 1
  }

  /** The last events before the `sent`-th, as many as the channel keeps. */
  function Recent(kind: Kind, sent: nat): seq<nat> {
    Range(if sent > Kept(kind) then sent - Kept(kind) else 0, sent)
  }

  /** Until the first subscription the eager listener is attached and nothing else has happened. */
  ghost predicate ListenersValid(c: Channel) {
    && c.native == (if c.callbacks != [] then [Shared] else if c.kind != Plain && c.subs == [] then [Eager] else [])
    && (c.kind != Plain && c.subs == [] ==> c.buffer == if c.sent == 0 then None else Some(Recent(c.kind, c.sent)))
    && (c.kind == Plain || c.subs != [] ==> c.buffer.None?)
  }

  ghost predicate CallbacksValid(c: Channel) {
    && |c.callbacks| <= |c.subs|
    && (forall id: nat :: id in c.callbacks <==> id < |c.subs| && c.subs[id].active)
    && (forall i, j :: 0 <= i < j < |c.callbacks| ==> c.callbacks[i] != c.callbacks[j])
    && (forall i, j :: 0 <= i < j < |c.subs| && c.subs[i].active && c.subs[j].active ==>
          c.subs[i].callback != c.subs[j].callback)
  }

  /** Where the events a subscription can have seen end. */
  function Last(c: Channel, sub: Sub): nat {
    if sub.active then c.sent else sub.until
  }

  /**
   * What a subscription has seen: every event from its own on, and its replay in one piece at the point it was made.
   */
  ghost predicate LogValid(c: Channel, sub: Sub) {
    && sub.from <= Last(c, sub) <= c.sent
    && (sub.receivedLive <==> sub.from < Last(c, sub))
    && (sub.replay.Made? ==>
          sub.from <= sub.replay.at <= Last(c, sub) && (c.kind.Latest? ==> sub.replay.at == sub.from))
    && sub.log == (if sub.replay.Made?
                   then Range(sub.from, sub.replay.at) + sub.buffered + Range(sub.replay.at, Last(c, sub))
                   else Range(sub.from, Last(c, sub)))
  }

  /** The buffer went to the first subscription, whole, and to no other. */
  ghost predicate ReplaysValid(c: Channel) {
    && (forall id :: 0 <= id < |c.subs| ==>
          c.subs[id].buffered == (if id == 0 && c.kind != Plain then Recent(c.kind, c.subs[id].from) else []))
    && (forall id :: 0 <= id < |c.subs| ==> (c.subs[id].replay == NoReplay <==> c.subs[id].buffered == []))
    && c.microtasks == (if |c.subs| > 0 && c.subs[0].replay.Pending? then [0] else [])
  }

  ghost predicate Valid(c: Channel) {
    && ListenersValid(c) && CallbacksValid(c) && ReplaysValid(c)
    && forall id :: 0 <= id < |c.subs| ==> LogValid(c, c.subs[id])
  }

  lemma RangeSnoc(a: nat, b: nat)
    requires a <= b
    ensures Range(a, b) + [b] == Range(a, b + 1)
  {
  }

  lemma PushKeepsRecent(kind: Kind, sent: nat)
    requires kind != Plain
    ensures Push(kind, if sent == 0 then None else Some(Recent(kind, sent)), sent) == Recent(kind, sent + 1)
  {
  }

  lemma LiveLog(c: Channel, d: Channel, sub: Sub)
    requires LogValid(c, sub) && d.kind == c.kind && d.sent == c.sent + 1
    ensures LogValid(d, DeliverLive(sub, c.sent))
  {
    if sub.active {
      if sub.replay.Made? {
        RangeSnoc(sub.replay.at, c.sent);
        var head, tail := Range(sub.from, sub.replay.at) + sub.buffered, Range(sub.replay.at, c.sent);
        assert head + tail + [c.sent] == head + (tail + [c.sent]);
      } else {
        RangeSnoc(sub.from, c.sent);
      }
    }
  }

  lemma SendToEager(c: Channel)
    requires Valid(c) && c.kind != Plain && c.subs == []
    ensures Valid(AfterSend(c))
  {
    PushKeepsRecent(c.kind, c.sent);
    assert c.native == [Eager];
    assert AfterSend(c) == c.(buffer := Some(Recent(c.kind, c.sent + 1)), sent := c.sent + 1);
  }

  lemma SendToNone(c: Channel)
    requires Valid(c) && c.native == []
    ensures Valid(AfterSend(c))
  {
    var d := AfterSend(c);
    assert d == c.(sent := c.sent + 1);
    forall id | 0 <= id < |d.subs| ensures LogValid(d, d.subs[id]) {
      assert LogValid(c, c.subs[id]) && (c.subs[id].active ==> id in c.callbacks);
    }
  }

  lemma SendToShared(c: Channel)
    requires Valid(c) && c.callbacks != []
    ensures Valid(AfterSend(c))
  {
    var d := AfterSend(c);
    assert c.native == [Shared];
    forall id | 0 <= id < |d.subs| ensures d.subs[id] == DeliverLive(c.subs[id], c.sent) {
      assert id in c.callbacks <==> c.subs[id].active;
    }
    SharedLogs(c, d);
  }

  lemma SharedLogs(c: Channel, d: Channel)
    requires Valid(c) && |d.subs| == |c.subs|
             && forall id :: 0 <= id < |d.subs| ==> d.subs[id] == DeliverLive(c.subs[id], c.sent)
    requires c.subs != [] && d == c.(subs := d.subs, sent := c.sent + 1)
    ensures Valid(d)
  {
    forall id | 0 <= id < |d.subs| ensures LogValid(d, d.subs[id]) {
      LiveLog(c, d, c.subs[id]);
    }
  }

  lemma SendKeeps(c: Channel)
    requires Valid(c)
    ensures Valid(AfterSend(c))
  {
    if c.callbacks != [] {
      SendToShared(c);
    } else if c.kind != Plain && c.subs == [] {
      SendToEager(c);
    } else {
      SendToNone(c);
    }
  }

  lemma NewCallback(c: Channel, callback: nat)
    requires Valid(c) && Registered(c, callback).None?
    ensures CallbacksValid(AfterOn(c, callback))
  {
    var d, n := AfterOn(c, callback), |c.subs|;
    assert d.callbacks == c.callbacks + [n] && d.subs[n].active && d.subs[n].callback == callback;
    assert forall id :: 0 <= id < n ==> d.subs[id] == c.subs[id];
    forall id: nat ensures id in d.callbacks <==> id < |d.subs| && d.subs[id].active {
      assert id in d.callbacks <==> id in c.callbacks || id == n;
    }
    forall i | 0 <= i < n && d.subs[i].active ensures d.subs[i].callback != callback {
      assert i in c.callbacks;
    }
    forall i | 0 <= i < |c.callbacks| ensures d.callbacks[i] != n {
      assert c.callbacks[i] in c.callbacks;
    }
  }

  lemma NewListener(c: Channel, callback: nat)
    requires Valid(c) && Registered(c, callback).None?
    ensures ListenersValid(AfterOn(c, callback))
  {
    assert Detach([Eager], Eager) == [] && Detach([], Eager) == [];
  }

  lemma NewReplay(c: Channel, callback: nat)
    requires Valid(c) && Registered(c, callback).None?
    ensures ReplaysValid(AfterOn(c, callback))
  {
    var d := AfterOn(c, callback);
    assert forall id :: 0 <= id < |c.subs| ==> d.subs[id] == c.subs[id];
  }

  lemma OnKeeps(c: Channel, callback: nat)
    requires Valid(c)
    ensures Valid(AfterOn(c, callback))
  {
    if Registered(c, callback).None? {
      NewListener(c, callback);
      NewCallback(c, callback);
      NewReplay(c, callback);
      var d, n := AfterOn(c, callback), |c.subs|;
      forall id | 0 <= id < |d.subs| ensures LogValid(d, d.subs[id]) {
        assert id < n ==> d.subs[id] == c.subs[id] && LogValid(c, c.subs[id]);
      }
    }
  }

  lemma {:induction false} DropMembers(ids: seq<nat>, id: nat)
    requires forall i, j :: 0 <= i < j < |ids| ==> ids[i] != ids[j]
    ensures |Drop(ids, id)| <= |ids|
    ensures forall x :: x in Drop(ids, id) <==> x in ids && x != id
    ensures forall i, j :: 0 <= i < j < |Drop(ids, id)| ==> Drop(ids, id)[i] != Drop(ids, id)[j]
  {
    if ids != [] {
      assert ids == [ids[0]] + ids[1..];
      if ids[0] != id {
        DropMembers(ids[1..], id);
        assert ids[0] !in Drop(ids[1..], id);
      }
    }
  }

  lemma RemovedCallbacks(c: Channel, id: nat)
    requires Valid(c) && id < |c.subs| && c.subs[id].active
    ensures CallbacksValid(AfterRemove(c, id)) && c.callbacks != []
  {
    DropMembers(c.callbacks, id);
    assert id in c.callbacks;
    var d := AfterRemove(c, id);
    assert forall k :: 0 <= k < |d.subs| && k != id ==> d.subs[k] == c.subs[k];
  }

  lemma RemovedLogs(c: Channel, id: nat)
    requires Valid(c) && id < |c.subs| && c.subs[id].active
    ensures forall k :: 0 <= k < |AfterRemove(c, id).subs| ==> LogValid(AfterRemove(c, id), AfterRemove(c, id).subs[k])
  {
    var d := AfterRemove(c, id);
    forall k | 0 <= k < |d.subs| ensures LogValid(d, d.subs[k]) {
      assert LogValid(c, c.subs[k]);
    }
  }

  lemma RemoveKeeps(c: Channel, id: nat)
    requires Valid(c) && id < |c.subs|
    ensures Valid(AfterRemove(c, id))
  {
    if c.subs[id].active {
      RemovedCallbacks(c, id);
      RemovedLogs(c, id);
      assert Detach([Shared], Shared) == [];
    }
  }

  lemma ReplayedLog(c: Channel, d: Channel)
    requires Valid(c) && c.microtasks == [0] && 0 < |c.subs| && d == AfterMicrotask(c)
    ensures LogValid(d, d.subs[0])
  {
    var sub := c.subs[0];
    assert LogValid(c, sub) && sub.replay.Pending?;
    if d.subs[0].replay.Made? {
      assert Range(c.sent, c.sent) == [];
      assert d.subs[0].log == Range(sub.from, c.sent) + sub.buffered + Range(c.sent, c.sent);
    }
  }

  lemma MicrotaskKeeps(c: Channel)
    requires Valid(c) && c.microtasks != []
    ensures Enabled(c, Microtask) && Valid(AfterMicrotask(c))
  {
    var d := AfterMicrotask(c);
    ReplayedLog(c, d);
    assert forall k :: 1 <= k < |d.subs| ==> d.subs[k] == c.subs[k];
    forall k | 1 <= k < |d.subs| ensures LogValid(d, d.subs[k]) {
      assert LogValid(c, c.subs[k]);
    }
  }

  lemma StepKeeps(c: Channel, e: Event)
    requires Valid(c) && Enabled(c, e)
    ensures Valid(Step(c, e))
  {
    match e
    case Send => SendKeeps(c);
    case On(callback) => OnKeeps(c, callback);
    case Remove(id) => RemoveKeeps(c, id);
    case Microtask => MicrotaskKeeps(c);
  }

  // ---------------------------------------------------------------- runs

  ghost predicate Legal(c: Channel, es: seq<Event>)
    decreases |es|
  {
    es != [] ==> Enabled(c, es[0]) && Legal(Step(c, es[0]), es[1..])
  }

  function After(c: Channel, es: seq<Event>): Channel
    requires Legal(c, es)
    decreases |es|
  {
    if es == [] then c else After(Step(c, es[0]), es[1..])
  }

  lemma {:induction false} RunKeeps(c: Channel, es: seq<Event>)
    requires Valid(c) && Legal(c, es)
    ensures Valid(After(c, es))
    decreases |es|
  {
    if es != [] {
      StepKeeps(c, es[0]);
      RunKeeps(Step(c, es[0]), es[1..]);
    }
  }

  lemma InitialValid(kind: Kind)
    ensures Valid(Initial(kind))
  {
  }

  /**
   * One native listener at most: the eager one before the first subscription, the shared one while somebody listens.
   */
  lemma OneListener(kind: Kind, es: seq<Event>)
    requires Legal(Initial(kind), es)
    ensures var c := After(Initial(kind), es);
            && |c.native| <= 1
            && (Shared in c.native <==> exists id :: 0 <= id < |c.subs| && c.subs[id].active)
            && (Eager in c.native <==> kind != Plain && c.subs == [])
            && (Eager in c.native ==> c.buffer == if c.sent == 0 then None else Some(Recent(kind, c.sent)))
  {
    InitialValid(kind);
    RunKeeps(Initial(kind), es);
    RunKeepsKind(Initial(kind), es);
    ListenersOf(After(Initial(kind), es));
  }

  lemma ListenersOf(c: Channel)
    requires Valid(c)
    ensures |c.native| <= 1
    ensures Shared in c.native <==> exists id :: 0 <= id < |c.subs| && c.subs[id].active
    ensures Eager in c.native <==> c.kind != Plain && c.subs == []
    ensures Eager in c.native ==> c.buffer == if c.sent == 0 then None else Some(Recent(c.kind, c.sent))
  {
    if c.callbacks != [] {
      assert c.callbacks[0] in c.callbacks;
    }
  }

  lemma {:induction false} RunKeepsKind(c: Channel, es: seq<Event>)
    requires Legal(c, es)
    ensures After(c, es).kind == c.kind
    decreases |es|
  {
    if es != [] {
      RunKeepsKind(Step(c, es[0]), es[1..]);
    }
  }

  /** The events before the first subscription reach that subscription alone, at most once; every later event reaches
      exactly the subscriptions registered when it is sent. */
  lemma EveryLog(kind: Kind, es: seq<Event>, id: nat)
    requires Legal(Initial(kind), es) && id < |After(Initial(kind), es).subs|
    ensures var c := After(Initial(kind), es);
            var sub := c.subs[id];
            LogValid(c, sub) && (id > 0 ==> sub.buffered == [])
    ensures var c := After(Initial(kind), es);
            kind != Plain ==> c.subs[0].buffered == Recent(kind, c.subs[0].from)
  {
    InitialValid(kind);
    RunKeeps(Initial(kind), es);
    RunKeepsKind(Initial(kind), es);
  }

  /** After its removal a subscription sees nothing more, its queued replay included. */
  lemma RemovedSeesNothing(c: Channel, e: Event, id: nat)
    requires Valid(c) && Enabled(c, e) && id < |c.subs| && !c.subs[id].active
    ensures id < |Step(c, e).subs| && !Step(c, e).subs[id].active && Step(c, e).subs[id].log == c.subs[id].log
  {
    match e
    case Send => assert c.callbacks != [] ==> AfterSend(c).subs[id] == c.subs[id];
    case On(callback) => assert Registered(c, callback).None? ==> AfterOn(c, callback).subs[id] == c.subs[id];
    case Remove(other) => assert other != id ==> AfterRemove(c, other).subs[id] == c.subs[id];
    case Microtask => assert id != 0 ==> AfterMicrotask(c).subs[id] == c.subs[id];
  }

  // ---------------------------------------------------------------- order of delivery

  ghost predicate Ascending(xs: seq<nat>) {
    forall i, j :: 0 <= i < j < |xs| ==> xs[i] < xs[j]
  }

  lemma RecentThenRange(kind: Kind, from: nat, end: nat)
    requires from <= end
    ensures Ascending(Recent(kind, from) + Range(from, end))
  {
  }

  /** A log is in order exactly when its replay, if it has one, was made before any live event. */
  lemma InOrderIff(c: Channel, id: nat)
    requires Valid(c) && id < |c.subs|
    ensures Ascending(c.subs[id].log) <==> (c.subs[id].replay.Made? ==> c.subs[id].replay.at == c.subs[id].from)
  {
    assert LogValid(c, c.subs[id]);
    assert c.subs[id].replay.Made? ==> c.subs[id].buffered == Recent(c.kind, c.subs[id].from) != [];
    LogInOrderIff(c.kind, c.subs[id], Last(c, c.subs[id]));
  }

  lemma LogInOrderIff(kind: Kind, sub: Sub, end: nat)
    requires sub.from <= end
    requires sub.replay.Made? ==> sub.from <= sub.replay.at <= end && sub.buffered == Recent(kind, sub.from) != []
    requires sub.log == if sub.replay.Made?
                        then Range(sub.from, sub.replay.at) + sub.buffered + Range(sub.replay.at, end)
                        else Range(sub.from, end)
    ensures Ascending(sub.log) <==> (sub.replay.Made? ==> sub.replay.at == sub.from)
  {
    if sub.replay.Made? {
      ReplayInOrderIff(Range(sub.from, sub.replay.at), sub.buffered, Range(sub.replay.at, end), kind, sub.from,
                       sub.replay.at, end);
    }
  }

  lemma ReplayInOrderIff(live: seq<nat>, replayed: seq<nat>, rest: seq<nat>, kind: Kind, from: nat, at: nat, end: nat)
    requires from <= at <= end && live == Range(from, at) && replayed == Recent(kind, from) != []
    requires rest == Range(at, end)
    ensures Ascending(live + replayed + rest) <==> at == from
  {
    var log := live + replayed + rest;
    if at == from {
      RecentThenRange(kind, from, end);
      assert log == replayed + rest;
    } else {
      assert log[0] == from && log[|live|] == replayed[0] < from;
    }
  }

  /** On replay-latest channels nobody sees an older value after a newer one, in any interleaving. */
  lemma LatestInOrder(es: seq<Event>, id: nat)
    requires Legal(Initial(Latest), es) && id < |After(Initial(Latest), es).subs|
    ensures Ascending(After(Initial(Latest), es).subs[id].log)
  {
    InitialValid(Latest);
    RunKeeps(Initial(Latest), es);
    RunKeepsKind(Initial(Latest), es);
    var c := After(Initial(Latest), es);
    assert LogValid(c, c.subs[id]);
    InOrderIff(c, id);
  }

  /** Microtasks run before the next event arrives. */
  ghost predicate Prompt(c: Channel, es: seq<Event>)
    requires Legal(c, es)
    decreases |es|
  {
    es != [] ==> (es[0] == Send ==> c.microtasks == []) && Prompt(Step(c, es[0]), es[1..])
  }

  ghost predicate OnTime(c: Channel) {
    c.subs != [] ==>
      && (c.subs[0].replay.Pending? ==> c.subs[0].from == c.sent)
      && (c.subs[0].replay.Made? ==> c.subs[0].replay.at == c.subs[0].from)
  }

  lemma StepOnTime(c: Channel, e: Event)
    requires Valid(c) && OnTime(c) && Enabled(c, e) && (e == Send ==> c.microtasks == [])
    ensures OnTime(Step(c, e))
  {
  }

  lemma {:induction false} RunOnTime(c: Channel, es: seq<Event>)
    requires Valid(c) && OnTime(c) && Legal(c, es) && Prompt(c, es)
    ensures OnTime(After(c, es))
    decreases |es|
  {
    if es != [] {
      StepKeeps(c, es[0]);
      StepOnTime(c, es[0]);
      RunOnTime(Step(c, es[0]), es[1..]);
    }
  }

  /** With prompt microtasks every subscription of every channel sees its events in order. */
  lemma PromptInOrder(kind: Kind, es: seq<Event>, id: nat)
    requires Legal(Initial(kind), es) && Prompt(Initial(kind), es) && id < |After(Initial(kind), es).subs|
    ensures Ascending(After(Initial(kind), es).subs[id].log)
  {
    InitialValid(kind);
    RunKeeps(Initial(kind), es);
    RunOnTime(Initial(kind), es);
    assert id > 0 ==> After(Initial(kind), es).subs[id].replay == NoReplay;
    InOrderIff(After(Initial(kind), es), id);
  }

  lemma AfterCons(c: Channel, e: Event, es: seq<Event>)
    requires Enabled(c, e) && Legal(Step(c, e), es)
    ensures Legal(c, [e] + es) && After(c, [e] + es) == After(Step(c, e), es)
  {
    assert ([e] + es)[1..] == es;
  }

  /** Without them a buffered channel can deliver the second event before the replayed first. */
  lemma LateReplayReorders()
    ensures exists es :: Legal(Initial(Buffered), es) && |After(Initial(Buffered), es).subs| == 1
                         && After(Initial(Buffered), es).subs[0].log == [1, 0]
  {
    var c1 := Initial(Buffered).(sent := 1, buffer := Some([0]));
    assert Push(Buffered, None, 0) == [0];
    var c2 := FirstOn(c1);
    var c3 := c2.(sent := 2, subs := [c2.subs[0].(receivedLive := true, log := [1])]);
    assert [] + [1] == [1] && DeliverLive(c2.subs[0], 1) == c3.subs[0];
    assert Broadcast(c2.subs, c2.callbacks, 1) == c3.subs;
    var c4 := AfterMicrotask(c3);
    assert c4.subs[0].log == [1, 0];
    AfterCons(c3, Microtask, []);
    AfterCons(c2, Send, [Microtask] + []);
    AfterCons(c1, On(7), [Send] + ([Microtask] + []));
    AfterCons(Initial(Buffered), Send, [On(7)] + ([Send] + ([Microtask] + [])));
  }

  lemma FirstOn(c: Channel) returns (d: Channel)
    requires c == Initial(Buffered).(sent := 1, buffer := Some([0]))
    ensures d == AfterOn(c, 7)
    ensures d == Channel(Buffered, 1, [Shared], None, [0], [Sub(7, true, false, 1, 0, [0], Pending, [])], [0])
  {
    d := AfterOn(c, 7);
    assert Detach([Eager], Eager) == [];
  }
}
