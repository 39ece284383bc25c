/** The coordinator and its tracker as classes: each method takes a step of the machine in WorkMachine. */
module WorkCoordinator {
  import opened Options
  import opened WorkMachine

  class AsyncWorkTracker {
    var accepting: bool
    var inFlight: set<nat>
    var drains: seq<Drain>
    var drainPromise: Option<nat>
    var admitted: seq<nat>

    constructor ()
      ensures accepting && inFlight == {} && drains == [] && drainPromise == None && admitted == []
    {
      accepting, inFlight, drains, drainPromise, admitted := true, {}, [], None, [];
    }

    method Run(id: nat) returns (ok: bool)
      modifies this`inFlight, this`admitted
      ensures ok == accepting
      ensures inFlight == old(inFlight) + (if ok then {id} else {})
      ensures admitted == old(admitted) + if ok then [id] else []
    {
      if !accepting { return false; }
      inFlight := inFlight + {id};
      admitted := admitted + [id];
      ok := true;
    }

    /** The promise is the index of its loop. */
    method DrainAcceptedWork() returns (promise: nat)
      modifies this`drains
      ensures promise == |old(drains)|
      ensures drains == old(drains) + [if inFlight == {} then Drained else Awaiting(inFlight)]
    {
      promise := |drains|;
      drains := drains + [if inFlight == {} then Drained else Awaiting(inFlight)];
    }

    /** A drain loop goes round when everything it awaited has settled. */
    method DrainTurn(promise: nat)
      requires promise < |drains| && drains[promise].Awaiting? && drains[promise].snapshot !! inFlight
      modifies this`drains
      ensures drains == old(drains)[promise := if inFlight == {} then Drained else Awaiting(inFlight)]
    {
      drains := drains[promise := if inFlight == {} then Drained else Awaiting(inFlight)];
    }

    method StopAndDrain() returns (promise: nat)
      modifies this
      ensures inFlight == old(inFlight) && admitted == old(admitted) && drainPromise == Some(promise)
      ensures old(drainPromise).Some? ==>
                accepting == old(accepting) && drains == old(drains) && drainPromise == old(drainPromise)
      ensures old(drainPromise).None? ==>
                && !accepting && promise == |old(drains)|
                && drains == old(drains) + [if inFlight == {} then Drained else Awaiting(inFlight)]
    {
      if drainPromise.Some? { return drainPromise.value; }
      accepting := false;
      promise := DrainAcceptedWork();
      drainPromise := Some(promise);
    }
  }

  class MainProcessWorkCoordinator {
    const tracker: AsyncWorkTracker
    var ops: seq<Op>
    var holds: seq<Hold>
    var admissionHold: Option<nat>
    var startupWork: Option<nat>
    var startupDidSettle: bool
    var startupResolutions: nat
    ghost var arrivals: seq<Arrival>

    constructor ()
      ensures View() == INITIAL && fresh(tracker)
    {
      tracker := new AsyncWorkTracker();
      ops, holds, admissionHold, startupWork := [], [], None, None;
      startupDidSettle, startupResolutions, arrivals := false, 0, [];
    }

    ghost function View(): State
      reads this, tracker
    {
      State(ops, holds, admissionHold, tracker.accepting, tracker.inFlight, startupWork, startupDidSettle,
            startupResolutions, tracker.drains, tracker.drainPromise, tracker.admitted, arrivals)
    }

    method Admit(id: nat)
      requires id < |ops|
      modifies this`ops, tracker
      ensures View() == Track(old(View()), id)
    {
      var ok := tracker.Run(id);
      ops := ops[id := ops[id].(fate := if ok then Running else Refused)];
    }

    /** `run` for an operation that is already on record. */
    method Resume(id: nat)
      requires id < |ops| && (admissionHold.Some? ==> admissionHold.value < |holds|)
      modifies this, tracker
      ensures View() == Enter(old(View()), id)
    {
      if admissionHold.Some? {
        var h := admissionHold.value;
        holds := holds[h := holds[h].(incoming := holds[h].incoming || ops[id].blocks)];
        ops := ops[id := ops[id].(fate := Waiting(h))];
        arrivals := arrivals + [Arrival(id, h)];
      } else {
        Admit(id);
      }
    }

    /** `hasIncomingWork` of the preparation that holds `h`. */
    predicate HasIncomingWork(h: nat)
      requires h < |holds|
      reads this
    {
      holds[h].incoming
    }

    method Run(blocksPowerAction: bool) returns (id: nat)
      requires Valid(View())
      modifies this, tracker
      ensures View() == Step(old(View()), Event.Run(blocksPowerAction)) && Valid(View())
      ensures id == |old(ops)| && |ops| == id + 1 && ops[id].blocks == blocksPowerAction
      ensures match old(admissionHold)
              case Some(h) =>
                && ops[id].fate == Waiting(h) && h < |holds|
                && HasIncomingWork(h) == (old(holds)[h].incoming || blocksPowerAction)
              case None => ops[id].fate == (if tracker.accepting then Running else Refused) && holds == old(holds)
    {
      StepKeeps(View(), Event.Run(blocksPowerAction));
      id := |ops|;
      ops := ops + [Op(blocksPowerAction, Refused)];
      Resume(id);
    }

    /** The reaction to `hold.released`: the operation goes through `run` again. */
    method Wake(id: nat)
      requires Valid(View()) && Enabled(View(), Event.Wake(id))
      modifies this, tracker
      ensures View() == Step(old(View()), Event.Wake(id)) && Valid(View())
    {
      StepKeeps(View(), Event.Wake(id));
      Resume(id);
    }

    method PrepareForPowerAction() returns (hold: Option<nat>)
      requires Valid(View())
      modifies this`holds, this`admissionHold
      ensures View() == Step(old(View()), Prepare) && Valid(View())
      ensures hold.None? <==> old(admissionHold).Some? || !tracker.accepting
      ensures hold.Some? ==> hold == admissionHold && holds[hold.value] == Hold(false, false)
    {
      StepKeeps(View(), Prepare);
      if admissionHold.Some? || !tracker.accepting { return None; }
      hold := Some(|holds|);
      holds := holds + [Hold(false, false)];
      admissionHold := hold;
    }

    method Release(h: nat)
      requires Valid(View()) && h < |holds|
      modifies this`holds, this`admissionHold
      ensures View() == AfterRelease(old(View()), h) && Valid(View())
    {
      ReleaseKeeps(View(), h);
      if admissionHold == Some(h) { admissionHold := None; }
      holds := holds[h := holds[h].(released := true)];
    }

    method SettleStartup()
      modifies this`startupDidSettle, this`startupResolutions
      ensures View() == WorkMachine.SettleStartup(old(View()))
    {
      if startupDidSettle { return; }
      startupDidSettle := true;
      startupResolutions := startupResolutions + 1;
    }

    method StartStartup() returns (work: nat)
      requires Valid(View())
      modifies this, tracker
      ensures View() == Step(old(View()), Event.StartStartup) && Valid(View())
      ensures startupWork == Some(work) && (old(startupWork).Some? ==> startupWork == old(startupWork))
    {
      StepKeeps(View(), Event.StartStartup);
      if startupWork.Some? { return startupWork.value; }
      work := |ops|;
      ops := ops + [Op(true, Refused)];
      Admit(work);
      startupWork := Some(work);
    }

    method StopAndDrain() returns (drained: nat)
      requires Valid(View())
      modifies this, tracker
      ensures View() == AfterStop(old(View())) && Valid(View())
      ensures View().finalDrain == Some(drained)
    {
      StopKeeps(View());
      if admissionHold.Some? { Release(admissionHold.value); }
      if startupWork.None? { SettleStartup(); }
      drained := tracker.StopAndDrain();
    }

    /** An admitted operation settles: the tracker's reaction removes it. */
    method Finish(id: nat)
      requires Valid(View()) && Enabled(View(), Event.Finish(id))
      modifies this`ops, tracker
      ensures View() == Step(old(View()), Event.Finish(id)) && Valid(View())
    {
      StepKeeps(View(), Event.Finish(id));
      ops := ops[id := ops[id].(fate := Done)];
      tracker.inFlight := tracker.inFlight - {id};
    }
  }
}
