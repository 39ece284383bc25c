/** The module-level maps of src/preload/preload.ts: each call takes a step of one channel's ChannelMachine. */
module Preload {
  import opened Options
  import opened ChannelMachine
  import opened ChannelProofs

  type Name = string

  class Preload {
    const declared: Name -> bool
    const buffered: set<Name>
    const latest: set<Name>
    var replayBuffer: map<Name, seq<nat>>
    var native: map<Name, seq<Listener>>
    var subscriptions: map<Name, seq<nat>>
    var subs: map<Name, seq<Sub>>
    var microtasks: map<Name, seq<nat>>
    var sent: map<Name, nat>

    /** Attaches an eager listener to every buffered channel. */
    constructor (declared: Name -> bool, buffered: set<Name>, latest: set<Name>)
      ensures this.declared == declared && this.buffered == buffered && this.latest == latest
      ensures forall name :: View(name) == Initial(KindOf(name))
      ensures forall name :: View(name).native == if name in buffered then [Eager] else []
    {
      this.declared, this.buffered, this.latest := declared, buffered, latest;
      replayBuffer, subscriptions, subs, microtasks, sent := map[], map[], map[], map[], map[];
      native := map name | name in buffered :: [Eager];
    }

    function KindOf(name: Name): Kind {
      if name !in buffered then Plain else if name in latest then Latest else Buffered
    }

    static function Get<T>(m: map<Name, T>, name: Name, default: T): T {
      if name in m then m[name] else default
    }

    ghost function View(name: Name): Channel
      reads this
    {
      Channel(KindOf(name), Get(sent, name, 0), Get(native, name, []),
              if name in replayBuffer then Some(replayBuffer[name]) else None,
              Get(subscriptions, name, []), Get(subs, name, []), Get(microtasks, name, []))
    }

    /**
     * The listeners of a channel run, the eager one and then the shared one; the arguments are the event's position.
     */
    method Receive(name: Name)
      requires Valid(View(name))
      modifies this
      ensures View(name) == AfterSend(old(View(name))) && Valid(View(name))
      ensures forall other :: other != name ==> View(other) == old(View(other))
    {
      SendKeeps(View(name));
      Dispatch(name);
    }

    method Dispatch(name: Name)
      requires CallbacksValid(View(name))
      modifies this
      ensures View(name) == AfterSend(old(View(name)))
      ensures forall other :: other != name ==> View(other) == old(View(other))
    {
      var event := Get(sent, name, 0);
      RunListeners(name, event);
      sent := sent[name := event + 1];
    }

    method RunListeners(name: Name, event: nat)
      requires CallbacksValid(View(name)) && event == View(name).sent
      modifies this`replayBuffer, this`subs
      ensures View(name) == Heard(old(View(name)))
      ensures forall other :: other != name ==> View(other) == old(View(other))
    {
      var attached := Get(native, name, []);
      if Eager in attached { RunEager(name, event); }
      if Shared in attached { RunShared(name, event); }
    }

    method RunEager(name: Name, event: nat)
      modifies this`replayBuffer
      ensures View(name) == old(View(name)).(buffer := Some(Push(KindOf(name), old(View(name)).buffer, event)))
      ensures |Get(replayBuffer, name, [])| > 0
      ensures name in latest && name in buffered ==> replayBuffer[name] == [event]
      ensures forall other :: other != name ==> View(other) == old(View(other))
    {
      if name in latest && name in buffered {
        replayBuffer := replayBuffer[name := [event]];
        return;
      }
      var bucket := if name in replayBuffer then replayBuffer[name] else [];
      if |bucket| >= LIMIT { bucket := bucket[1..]; }
      replayBuffer := replayBuffer[name := bucket + [event]];
    }

    method RunShared(name: Name, event: nat)
      requires CallbacksValid(View(name))
      modifies this`subs
      ensures View(name) == old(View(name)).(subs := Broadcast(old(View(name)).subs, old(View(name)).callbacks, event))
      ensures forall other :: other != name ==> View(other) == old(View(other))
    {
      ghost var before := Get(subs, name, []);
      var current, callbacks := Get(subs, name, []), Get(subscriptions, name, []);
      for k := 0 to |callbacks|
        invariant |current| == |before|
        invariant forall i :: 0 <= i < |before| ==>
          current[i] == if i in callbacks[..k] then DeliverLive(before[i], event) else before[i]
      {
        var id := callbacks[k];
        assert id in callbacks && id !in callbacks[..k];
        assert callbacks[..k + 1] == callbacks[..k] + [id];
        if current[id].active {
          current := current[id := current[id].(receivedLive := true, log := current[id].log + [event])];
        }
      }
      assert callbacks[..|callbacks|] == callbacks;
      assert current == Broadcast(before, callbacks, event);
      subs := subs[name := current];
    }

    /** Returns the subscription, whose identity stands for the `remove` closure; an undeclared channel throws. */
    method On(name: Name, callback: nat) returns (r: Option<nat>)
      requires Valid(View(name))
      modifies this
      ensures !declared(name) ==> r.None? && View(name) == old(View(name))
      ensures declared(name) ==>
                && View(name) == AfterOn(old(View(name)), callback) && Valid(View(name))
                && r.Some? && r.value < |View(name).subs| && View(name).subs[r.value].callback == callback
                && View(name).subs[r.value].active
      ensures forall other :: other != name ==> View(other) == old(View(other))
    {
      if !declared(name) { return None; }
      OnKeeps(View(name), callback);
      var existing := Find(Get(subs, name, []), Get(subscriptions, name, []), callback);
      if existing.Some? { return existing; }
      var id := Register(name, callback);
      r := Some(id);
    }

    /** The part of `on` for a callback that is not registered yet. */
    method Register(name: Name, callback: nat) returns (id: nat)
      modifies this
      ensures id == |old(View(name)).subs| && View(name) == AfterRegister(old(View(name)), callback)
      ensures forall other :: other != name ==> View(other) == old(View(other))
    {
      AttachShared(name);
      id := |Get(subs, name, [])|;
      var buffered := TakeBuffer(name, id);
      var current := Sub(callback, true, false, Get(sent, name, 0), 0, buffered,
                         if buffered == [] then NoReplay else Pending, []);
      subscriptions := subscriptions[name := Get(subscriptions, name, []) + [id]];
      subs := subs[name := Get(subs, name, []) + [current]];
    }

    method AttachShared(name: Name)
      modifies this`native
      ensures View(name) == old(View(name)).(native := Attach(old(View(name)).native, View(name).callbacks))
      ensures forall other :: other != name ==> View(other) == old(View(other))
    {
      if Get(subscriptions, name, []) == [] {
        native := native[name := Detach(Get(native, name, []), Eager) + [Shared]];
      }
    }

    /** The buffered events go to subscription `id`, whose replay is queued. */
    method TakeBuffer(name: Name, id: nat) returns (buffered: seq<nat>)
      modifies this`replayBuffer, this`microtasks
      ensures var c := old(View(name));
              buffered == (if c.buffer.Some? then c.buffer.value else [])
              && View(name) == if buffered == [] then c else c.(buffer := None, microtasks := c.microtasks + [id])
      ensures forall other :: other != name ==> View(other) == old(View(other))
    {
      buffered := Get(replayBuffer, name, []);
      if buffered != [] {
        replayBuffer := replayBuffer - {name};
        microtasks := microtasks[name := Get(microtasks, name, []) + [id]];
      }
    }

    method Remove(name: Name, id: nat)
      requires Valid(View(name)) && id < |View(name).subs|
      modifies this
      ensures View(name) == AfterRemove(old(View(name)), id) && Valid(View(name))
      ensures forall other :: other != name ==> View(other) == old(View(other))
    {
      RemoveKeeps(View(name), id);
      Deactivate(name, id);
    }

    method Deactivate(name: Name, id: nat)
      requires id < |View(name).subs|
      modifies this
      ensures View(name) == AfterRemove(old(View(name)), id)
      ensures forall other :: other != name ==> View(other) == old(View(other))
    {
      var all, callbacks := Get(subs, name, []), Get(subscriptions, name, []);
      if !all[id].active { return; }
      subs := subs[name := all[id := all[id].(active := false, until := Get(sent, name, 0))]];
      subscriptions := subscriptions[name := Drop(callbacks, id)];
      if Drop(callbacks, id) == [] {
        native := native[name := Detach(Get(native, name, []), Shared)];
      }
    }

    /** The first queued replay of a channel. */
    method RunMicrotask(name: Name)
      requires Valid(View(name)) && View(name).microtasks != []
      modifies this
      ensures Enabled(old(View(name)), Microtask)
      ensures View(name) == AfterMicrotask(old(View(name))) && Valid(View(name))
      ensures 0 < |old(View(name)).subs| && 0 < |View(name).subs|
      ensures var s, t := old(View(name)).subs[0], View(name).subs[0];
              var skipped := !s.active || (name in buffered && name in latest && old(View(name)).sent > s.from);
              && (t.replay == Skipped <==> skipped)
              && t.log == (if skipped then s.log else s.log + s.buffered)
      ensures forall other :: other != name ==> View(other) == old(View(other))
    {
      MicrotaskKeeps(View(name));
      MicrotaskOutcome(View(name));
      Flush(name);
    }

    method Flush(name: Name)
      requires Enabled(View(name), Microtask)
      modifies this
      ensures View(name) == AfterMicrotask(old(View(name)))
      ensures forall other :: other != name ==> View(other) == old(View(other))
    {
      var all, queue := Get(subs, name, []), Get(microtasks, name, []);
      var id := queue[0];
      microtasks := microtasks[name := queue[1..]];
      var current := all[id];
      if !current.active || (KindOf(name) == Latest && current.receivedLive) {
        subs := subs[name := all[id := current.(replay := Skipped)]];
        return;
      }
      current := Replayed(current);
      subs := subs[name := all[id := current.(replay := Made(Get(sent, name, 0)))]];
    }

    static method Replayed(sub: Sub) returns (r: Sub)
      ensures r == sub.(log := sub.log + sub.buffered)
    {
      r := sub;
      for k := 0 to |sub.buffered|
        invariant r == sub.(log := sub.log + sub.buffered[..k])
      {
        assert sub.log + sub.buffered[..k + 1] == sub.log + sub.buffered[..k] + [sub.buffered[k]];
        r := r.(log := r.log + [sub.buffered[k]]);
      }
      assert sub.buffered[..|sub.buffered|] == sub.buffered;
    }
  }
}
