/** The dispatch governor's object. Each method is one critical section of the source: what runs
    between taking the controller's mutex and releasing it. */
module PtzControllers {
  import opened KeyOrder
  import opened PtzModel

  datatype Choice = Nothing | Picked(id: CameraId, cmd: Command)

  class PtzController {
    var keys: seq<CameraId>                // iteration order of `states`
    var states: map<CameraId, CamState>
    var settings: Settings
    var shutdown: bool
    var dispatching: nat

    ghost predicate Valid()
      reads this
    {
      && Sorted(keys)
      && (forall id :: id in keys <==> id in states)
      && dispatching < COUNT_LIMIT
    }

    ghost function Model(): Controller
      reads this
    {
      Controller(states, settings, shutdown, dispatching)
    }

    constructor (s: Settings)
      ensures Valid() && Model() == Controller(map[], s, false, 0)
    {
      keys, states, settings, shutdown, dispatching := [], map[], s, false, 0;
    }

    method SetSettings(s: Settings)
      requires Valid()
      modifies this
      ensures Valid() && Model() == old(Model()).(settings := s)
    {
      settings := s;
    }

    method Shutdown()
      requires Valid()
      modifies this
      ensures Valid() && Model() == old(Model()).(shutdown := true)
    {
      shutdown := true;
    }

    /** `states_[id]`: inserts a default state for a camera not seen before. */
    method Entry(id: CameraId) returns (s: CamState)
      requires Valid()
      modifies this
      ensures Valid() && id in states && s == states[id] == CamOf(old(Model()), id)
      ensures Model() == old(Model()).(cams := old(states)[id := s])
    {
      if id !in states {
        InsertSorted(keys, id);
        keys := Insert(keys, id);
        states := states[id := NEW_CAMERA];
      }
      s := states[id];
      assert states == old(states)[id := s];
    }

    method Move(id: CameraId, pan: real, tilt: real, zoom: real)
      requires Valid()
      modifies this
      ensures Valid() && Model() == AfterMove(old(Model()), id, pan, tilt, zoom)
    {
      var s := Entry(id);
      s := s.(held := true,
              heldCmd := Command(pan, tilt, zoom, false, settings.moveTimeoutSeconds));
      s := s.(hasDispatched := false, stopPending := false);
      states := states[id := s];
      assert states == old(states)[id := s];
    }

    method Stop(id: CameraId) returns (abortInFlight: bool)
      requires Valid()
      modifies this
      ensures Valid() && Model() == AfterStop(old(Model()), id)
      ensures abortInFlight == old(settings.stopImmediate)
    {
      var s := Entry(id);
      s := s.(held := false, stopPending := true, heldCmd := NO_COMMAND, hasDispatched := false);
      states := states[id := s];
      assert states == old(states)[id := s];
      abortInFlight := settings.stopImmediate;
    }

    method HasWork() returns (work: bool)
      requires Valid()
      ensures work <==> Work(Model()) != {}
    {
      for i := 0 to |keys|
        invariant forall j :: 0 <= j < i ==> !HasWorkOn(states[keys[j]])
      {
        var s := states[keys[i]];
        if s.stopPending || (s.held && (!s.hasDispatched || !Same(s.heldCmd, s.lastDispatched))) {
          assert keys[i] in Work(Model());
          return true;
        }
      }
      return false;
    }

    method StopQueued() returns (queued: bool)
      requires Valid()
      ensures queued <==> Stops(Model()) != {}
    {
      for i := 0 to |keys|
        invariant forall j :: 0 <= j < i ==> !states[keys[j]].stopPending
      {
        if states[keys[i]].stopPending {
          assert keys[i] in Stops(Model());
          return true;
        }
      }
      return false;
    }

    /** One turn of the floor wait: must the worker go on waiting? */
    method MustWait(s: Settings, lastMove: nat, now: nat) returns (wait: bool)
      requires Valid()
      ensures wait <==> FloorBlocks(Model(), s, lastMove, now)
    {
      wait := false;
      if lastMove != 0 {
        var nextSlot := lastMove + s.minIntervalMs * NS_PER_MS;
        if now < nextSlot {
          var queued := StopQueued();
          wait := !queued;
        }
      }
    }

    /** Chooses the next dispatch: the first queued stop, or else the first move that needs one. */
    method Pick() returns (choice: Choice)
      requires Valid()
      modifies this
      ensures Valid()
      ensures choice.Nothing? <==> Work(old(Model())) == {}
      ensures choice.Nothing? ==> Model() == old(Model())
      ensures choice.Picked? && Stops(old(Model())) != {} ==>
                && IsFirst(choice.id, Stops(old(Model())))
                && choice.cmd == STOP
                && Model() == AfterStopPick(old(Model()), choice.id)
      ensures choice.Picked? && Stops(old(Model())) == {} ==>
                && IsFirst(choice.id, Fresh(old(Model())))
                && choice.cmd == old(Model()).cams[choice.id].heldCmd
                && Model() == AfterMovePick(old(Model()), choice.id)
    {
      for i := 0 to |keys|
        invariant forall j :: 0 <= j < i ==> !states[keys[j]].stopPending
        invariant keys == old(keys) && Model() == old(Model())
      {
        var id := keys[i];
        if states[id].stopPending {
          FirstByPosition(keys, Stops(Model()), i);
          assert id in Work(Model());
          states := states[id := states[id].(stopPending := false, held := false, hasDispatched := false)];
          dispatching := Increment(dispatching);
          return Picked(id, NO_COMMAND.(stop := true));
        }
      }
      for i := 0 to |keys|
        invariant forall j :: 0 <= j < i ==> !NeedsMove(states[keys[j]])
        invariant keys == old(keys) && Model() == old(Model())
      {
        var id := keys[i];
        var s := states[id];
        if s.held && (!s.hasDispatched || !Same(s.heldCmd, s.lastDispatched)) {
          FirstByPosition(keys, Fresh(Model()), i);
          assert id in Work(Model());
          states := states[id := s.(lastDispatched := s.heldCmd, hasDispatched := true)];
          dispatching := Increment(dispatching);
          return Picked(id, s.heldCmd);
        }
      }
      return Nothing;
    }

    /** The predicate of the timed wait that holds a bounded move. */
    method HoldOver(id: CameraId, cmd: Command) returns (over: bool)
      ensures over == HoldEnds(Model(), id, cmd)
    {
      if id !in states || !states[id].held { return true; }
      if states[id].stopPending { return true; }
      return !Same(states[id].heldCmd, cmd);
    }

    method ShouldRefire(id: CameraId, cmd: Command) returns (refire: bool)
      ensures refire == Refires(Model(), id, cmd)
    {
      refire := id in states && states[id].held && Same(states[id].heldCmd, cmd) && !states[id].stopPending;
    }

    method FinishDispatch() returns (idleNow: bool)
      requires Valid()
      modifies this
      ensures Valid() && Model() == AfterFinish(old(Model()))
      ensures idleNow <==> Idle(Model())
    {
      idleNow := false;
      dispatching := Decrement(dispatching);
      if dispatching == 0 {
        var work := HasWork();
        idleNow := !work;
      }
    }
  }
}
