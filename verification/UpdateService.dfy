/** The class of src/server/app-update-service.ts: each method takes a step of the machine in UpdateMachine. */
module UpdateService {
  import opened ByteStrings
  import opened Options
  import opened Texts
  import opened Semver
  import opened UpdateChannel
  import opened UpdateMachine

  const MAX_METADATA_BYTES: nat := 256 * 1024

  /** The chunk loop of `fetchServerUpdateMetadata`: the whole body, unless it is over the limit. */
  method ReadMetadata(chunks: seq<Bytes>) returns (body: Option<Bytes>)
    ensures body == if |Flatten(chunks)| <= MAX_METADATA_BYTES then Some(Flatten(chunks)) else None
  {
    var kept: seq<Bytes> := [];
    var size := 0;
    for i := 0 to |chunks|
      invariant kept == chunks[..i]
      invariant size == |Flatten(chunks[..i])| <= MAX_METADATA_BYTES
    {
      assert chunks[..i + 1] == chunks[..i] + [chunks[i]];
      FlattenConcat(chunks[..i], [chunks[i]]);
      FlattenTwo(chunks[i], []);
      assert Flatten([chunks[i]]) == chunks[i] + Flatten([chunks[i]][1..]);
      size := size + |chunks[i]|;
      if size > MAX_METADATA_BYTES {
        FlattenConcat(chunks[..i + 1], chunks[i + 1..]);
        assert chunks == chunks[..i + 1] + chunks[i + 1..];
        return None;
      }
      kept := kept + [chunks[i]];
    }
    assert chunks[..|chunks|] == chunks;
    body := Some(Flatten(kept));
  }

  class ServerUpdateService {
    const currentVersion: Text
    var status: Status
    var channel: Channel
    var generation: nat
    var pending: Option<nat>
    var controller: Option<nat>
    var flights: seq<Flight>
    var aborted: set<nat>
    var emitted: seq<Status>

    constructor (currentVersion: Text, channel: Channel)
      ensures this.currentVersion == currentVersion && View() == Initial(channel) && Valid(currentVersion, View())
    {
      this.currentVersion, this.channel := currentVersion, channel;
      status, generation, pending, controller := Snapshot(Idle), 0, None, None;
      flights, aborted, emitted := [], {}, [];
    }

    ghost function View(): Service
      reads this
    {
      Service(status, channel, generation, pending, controller, flights, aborted, emitted)
    }

    method Transition(next: Status)
      modifies this`status, this`emitted
      ensures View() == UpdateMachine.Transition(old(View()), next)
    {
      status := next;
      emitted := emitted + [next];
    }

    method SetChannel(channel: Channel)
      requires Valid(currentVersion, View())
      modifies this
      ensures View() == AfterSetChannel(old(View()), channel) && Valid(currentVersion, View())
    {
      SetChannelKeeps(currentVersion, View(), channel);
      if channel == this.channel { return; }
      this.channel := channel;
      generation := generation + 1;
      if controller.Some? { aborted := aborted + {controller.value}; }
      pending := None;
      Transition(Snapshot(Idle));
    }

    /** The result names the promise: a second caller gets the pending one. */
    method Check() returns (promise: nat)
      requires Valid(currentVersion, View())
      modifies this
      ensures View() == AfterCheck(old(View())) && Valid(currentVersion, View())
      ensures pending == Some(promise) && (old(pending).Some? ==> pending == old(pending))
    {
      CheckKeeps(currentVersion, View());
      if pending.Some? { return pending.value; }
      generation := generation + 1;
      controller := Some(generation);
      Transition(Snapshot(Checking));
      flights := flights + [Flight(generation, channel)];
      pending := Some(generation);
      promise := generation;
    }

    /** The rest of a check, from the moment its metadata has been awaited. */
    method Complete(i: nat, outcome: Outcome, now: nat) returns (settled: Settled)
      requires Valid(currentVersion, View()) && i < |flights|
      modifies this
      ensures View() == AfterComplete(currentVersion, old(View()), i, outcome, now) && Valid(currentVersion, View())
      ensures settled == Rejected <==> old(flights[i]).generation == old(generation) && status.phase == Error
      ensures settled == Rejected ==> emitted == old(emitted) + [Status(Phase.Error, None, None, None)]
    {
      StepKeeps(currentVersion, View(), Event.Complete(i, outcome, now));
      var f := flights[i];
      flights := Without(flights, i);
      if f.generation != generation { return Fulfilled; }
      settled := Fulfilled;
      if outcome.Failed? || !IsVersionAllowedForChannel(outcome.version, f.channel)
         || !IsVersionAllowedForChannel(currentVersion, Beta) {
        Transition(Snapshot(Error));
        settled := Rejected;
      } else if Compare(outcome.version, currentVersion) > 0 {
        Transition(Status(Available, Some(now), Some(outcome.version), outcome.name));
      } else {
        Transition(Status(UpToDate, Some(now), None, None));
      }
      pending, controller := None, None;
    }
  }
}
