/**
 The control loop as a program: an object whose methods update its fields, one `Step` per
 iteration, proved to compute the functions of module ElevatorControl.
*/
module ElevatorLoop {
  import opened ElevatorTypes
  import opened ElevatorControl
  import opened ElevatorSafety

  /** How a call of `Step` ends. */
  datatype End = Running | Hung | AssertionFailed

  function Ended(end: End, c: Car): Outcome {
    match end
    case Running => Continue(c)
    case Hung => Obstructed(c)
    case AssertionFailed => Failed(c)
  }

  /** The panel, floor by floor. */
  method GenFloorButtons(b: Bounds) returns (btns: seq<Button>)
    requires b.Valid()
    ensures btns == FloorButtons(b, b.max)
  {
    btns := [];
    var i := b.min;
    while i <= b.max
      invariant i <= b.max + 1
      invariant btns == FloorButtons(b, i - 1)
    {
      btns := btns + [Button(TargetFloor, i)];
      if i < b.max {
        btns := btns + [Button(CallUp, i)];
      }
      if i > b.min {
        btns := btns + [Button(CallDown, i)];
      }
      i := i + 1;
    }
  }

  // ---- the set algebra of the loops

  /** Merging one more floor of lit lamps and pending requests into each other. */
  lemma MergeFloor(requests: set<int>, lamps: set<int>, done: set<int>, i: int)
    requires i !in done
    ensures var r := requests + (lamps * done);
            var l := lamps + (requests * done);
            var r' := if i in l then r + {i} else r;
            && r' == requests + (lamps * (done + {i}))
            && (if i in r' then l + {i} else l) == lamps + (requests * (done + {i}))
  {
  }

  lemma MergedLamps(requests: set<int>, lamps: set<int>, done: set<int>)
    ensures lamps + (requests * done) == lamps + ((requests + (lamps * done)) * done)
  {
  }

  lemma CopyFloor(calls: set<int>, lamps: set<int>, done: set<int>, i: int)
    requires i !in done
    ensures var l := (lamps - done) + (calls * done);
            (if i in calls then l + {i} else l - {i}) == (lamps - (done + {i})) + (calls * (done + {i}))
  {
  }

  lemma CountFloor(seen: set<int>, here: int, i: int)
    requires i !in seen
    ensures |Above(seen + {i}, here)| == |Above(seen, here)| + if i > here then 1 else 0
    ensures |Below(seen + {i}, here)| == |Below(seen, here)| + if i < here then 1 else 0
  {
    AddedFloor(seen, here, i);
    hide Above, Below;
    assert i !in Above(seen, here) && i !in Below(seen, here);
  }

  lemma AddedFloor(seen: set<int>, here: int, i: int)
    requires i !in seen
    ensures Above(seen + {i}, here) == Above(seen, here) + if i > here then {i} else {}
    ensures Below(seen + {i}, here) == Below(seen, here) + if i < here then {i} else {}
    ensures i !in Above(seen, here) && i !in Below(seen, here)
  {
  }

  function Chosen(es: ElevatorState, b: Bounds): ElevatorState {
    es.(direction := if es.lastFloor == b.min then Up
                     else if es.lastFloor == b.max then Down
                     else if es.direction == None then OptimalDirection(es.inside, es.up + es.down, es.lastFloor)
                     else es.direction)
  }

  lemma StartIs(c: Car, direction: Direction, sensor: int)
    ensures var es := Chosen(c.Observe(sensor).es.(direction := direction), c.b);
            c.Start(direction, sensor) == c.(es := es, motor := es.direction, doorLamp := false)
  {
    hide OptimalDirection;
  }

  /** The merge as the loop over the floors leaves it. */
  lemma InitializeIs(c: Car)
    ensures var here := Floors(c.b);
            c.Initialize() == c.(es := c.es.(inside := c.es.inside + (c.insideLamps * here),
                                             stopped := c.es.stopped || c.stopLamp,
                                             doorOpen := c.es.doorOpen || c.doorLamp),
                                 insideLamps := c.insideLamps + (c.es.inside * here),
                                 upLamps := (c.upLamps - here) + (c.es.up * here),
                                 downLamps := (c.downLamps - here) + (c.es.down * here),
                                 mode := if c.stopLamp then Stopped else Normal,
                                 stopNow := false, held := {}, heldLast := {}, prevFloor := NO_FLOOR,
                                 waitingSince := 0)
  {
    MergedLamps(c.es.inside, c.insideLamps, Floors(c.b));
  }

  lemma SafeRequests(c: Car)
    requires Safe(c)
    ensures c.Consistent() && c.b.HasAll(c.es.All())
  {
  }

  lemma SameRequests(b: Bounds, es: ElevatorState, now: ElevatorState)
    requires b.HasAll(es.All()) && now.inside == es.inside && now.up == es.up && now.down == es.down
    ensures b.HasAll(now.All())
  {
  }

  class Elevator {
    const b: Bounds
    const floorButtons: seq<Button>
    var elevState: ElevatorState
    var previousDirection: Direction
    var lastStateUpdate: int

    // lamps and motor of the driver
    var insideLamps: set<int>
    var upLamps: set<int>
    var downLamps: set<int>
    var stopLamp: bool
    var doorLamp: bool
    var motor: Direction

    // locals of the loop
    var mode: Mode
    var stopNow: bool
    var inFloorButtons: set<int>
    var inFloorButtonsLast: set<int>
    var prevFloor: int
    var doorWaitingStarted: int

    // the outgoing queue
    var outState: seq<StateChange>

    function Snapshot(): Car
      reads this
    {
      Car(b, elevState, previousDirection, lastStateUpdate, insideLamps, upLamps, downLamps, stopLamp, doorLamp,
          motor, mode, stopNow, inFloorButtons, inFloorButtonsLast, prevFloor, doorWaitingStarted, outState)
    }

    ghost predicate Valid()
      reads this
    {
      Safe(Snapshot()) && floorButtons == FloorButtons(b, b.max)
    }

    /** A new elevator over hardware with its lamps in any position; the loop is entered. */
    constructor (b: Bounds, id: int, insideLamps: set<int>, upLamps: set<int>, downLamps: set<int>,
                 stopLamp: bool, doorLamp: bool)
      requires b.Valid() && 0 <= id
      ensures Valid() && this.b == b
      ensures elevState.id == id && elevState.lastFloor == b.min && elevState.direction == None
      ensures elevState.inside == insideLamps * Floors(b) && elevState.up == {} && elevState.down == {}
      ensures mode == if stopLamp then Stopped else Normal
    {
      this.b := b;
      var btns := GenFloorButtons(b);
      floorButtons := btns;
      elevState := ElevatorState(id, 0, b.min, None, false, true, {}, {}, {});
      previousDirection, lastStateUpdate := None, 0;
      this.insideLamps, this.upLamps, this.downLamps := insideLamps, upLamps, downLamps;
      this.stopLamp, this.doorLamp, motor := stopLamp, doorLamp, None;
      outState := [];
      new;
      ghost var parked := Snapshot();
      InitializeElevator();
      InitializeSafe(parked);
    }

    /** Lights and requests of one floor are merged; call lamps follow the calls of this elevator. */
    method InitializeFloor(i: int)
      modifies this`elevState, this`insideLamps, this`upLamps, this`downLamps
      ensures elevState == old(elevState).(inside := if i in old(insideLamps) then old(elevState.inside) + {i}
                                                     else old(elevState.inside))
      ensures insideLamps == if i in elevState.inside then old(insideLamps) + {i} else old(insideLamps)
      ensures upLamps == if i in elevState.up then old(upLamps) + {i} else old(upLamps) - {i}
      ensures downLamps == if i in elevState.down then old(downLamps) + {i} else old(downLamps) - {i}
    {
      if i in insideLamps {
        elevState := elevState.(inside := elevState.inside + {i});
      }
      if i in elevState.inside {
        insideLamps := insideLamps + {i};
      }
      upLamps := if i in elevState.up then upLamps + {i} else upLamps - {i};
      downLamps := if i in elevState.down then downLamps + {i} else downLamps - {i};
    }

    method InitializeFloors()
      requires b.Valid()
      modifies this`elevState, this`insideLamps, this`upLamps, this`downLamps
      ensures elevState == old(elevState).(inside := old(elevState.inside) + (old(insideLamps) * Floors(b)))
      ensures insideLamps == old(insideLamps) + (old(elevState.inside) * Floors(b))
      ensures upLamps == (old(upLamps) - Floors(b)) + (elevState.up * Floors(b))
      ensures downLamps == (old(downLamps) - Floors(b)) + (elevState.down * Floors(b))
    {
      var i := b.min;
      while i <= b.max
        invariant b.min <= i <= b.max + 1
        invariant elevState == old(elevState).(inside := elevState.inside)
        invariant elevState.inside == old(elevState.inside) + (old(insideLamps) * FloorsBelow(i))
        invariant insideLamps == old(insideLamps) + (old(elevState.inside) * FloorsBelow(i))
        invariant upLamps == (old(upLamps) - FloorsBelow(i)) + (elevState.up * FloorsBelow(i))
        invariant downLamps == (old(downLamps) - FloorsBelow(i)) + (elevState.down * FloorsBelow(i))
      {
        ghost var done := FloorsBelow(i);
        assert i !in done && FloorsBelow(i + 1) == done + {i};
        MergeFloor(old(elevState.inside), old(insideLamps), done, i);
        CopyFloor(elevState.up, old(upLamps), done, i);
        CopyFloor(elevState.down, old(downLamps), done, i);
        InitializeFloor(i);
        i := i + 1;
      }
      assert FloorsBelow(i) == Floors(b);
    }

    method InitializeElevator()
      requires b.Valid()
      modifies this
      ensures Snapshot() == old(Snapshot()).Initialize()
    {
      InitializeIs(Snapshot());
      hide Floors, Car.Initialize;
      InitializeFloors();
      if stopLamp {
        elevState := elevState.(stopped := true);
      }
      if doorLamp {
        elevState := elevState.(doorOpen := true);
      }
      EnterLoop();
    }

    method EnterLoop()
      modifies this`mode, this`stopNow, this`inFloorButtons, this`inFloorButtonsLast, this`prevFloor,
               this`doorWaitingStarted
      ensures mode == (if stopLamp then Stopped else Normal) && !stopNow && inFloorButtons == inFloorButtonsLast == {}
      ensures prevFloor == NO_FLOOR && doorWaitingStarted == 0
    {
      mode := if stopLamp then Stopped else Normal;
      stopNow, inFloorButtons, inFloorButtonsLast := false, {}, {};
      prevFloor, doorWaitingStarted := NO_FLOOR, 0;
    }

    ghost function FloorsBelow(i: int): set<int> { set f | b.min <= f < i && b.Has(f) }

    method EmitStateChange(kind: ChangeType, floor: int, now: int)
      modifies this`lastStateUpdate, this`outState
      ensures Snapshot() == old(Snapshot()).Emit(kind, floor, now)
    {
      lastStateUpdate := now;
      outState := outState + [StateChange(kind, floor, elevState.(timestamp := now))];
    }

    method UpdateAndGetFloor(sensor: int) returns (floor: int)
      modifies this`elevState
      ensures floor == sensor
      ensures elevState == if sensor != NO_FLOOR then old(elevState).(lastFloor := sensor) else old(elevState)
    {
      if sensor != NO_FLOOR {
        elevState := elevState.(lastFloor := sensor);
      }
      return sensor;
    }

    method StopElevator()
      modifies this`elevState, this`previousDirection, this`motor
      ensures Snapshot() == old(Snapshot()).Halt()
    {
      if elevState.direction != None {
        previousDirection := elevState.direction;
      }
      elevState := elevState.(direction := None);
      motor := None;
    }

    /** Counts the requests on either side. */
    method OptimalDirection() returns (direction: Direction)
      requires b.HasAll(elevState.All())
      ensures direction == ElevatorControl.OptimalDirection(elevState.inside, elevState.up + elevState.down,
                                                             elevState.lastFloor)
    {
      var lowerThan, higherThan := 0, 0;
      var serve := elevState.inside;
      if serve == {} {
        serve := elevState.up + elevState.down;
      }
      var here := elevState.lastFloor;
      var i := b.min;
      ghost var seen: set<int> := {};
      while i <= b.max
        invariant b.min <= i && forall f :: f in seen <==> f in serve && f < i
        invariant higherThan == |Above(seen, here)| && lowerThan == |Below(seen, here)|
        decreases b.max - i
      {
        if i in serve {
          CountFloor(seen, here, i);
          if i > here {
            higherThan := higherThan + 1;
          }
          if i < here {
            lowerThan := lowerThan + 1;
          }
          seen := seen + {i};
        }
        i := i + 1;
      }
      assert forall f <- serve :: f in elevState.All() && b.Has(f);
      assert Above(seen, here) == Above(serve, here) && Below(seen, here) == Below(serve, here);
      return if higherThan >= lowerThan then Up else Down;
    }

    /** At an end floor there is one way to go; elsewhere the requests decide if the caller does not. */
    method ChooseDirection()
      requires b.HasAll(elevState.All())
      modifies this`elevState
      ensures elevState == Chosen(old(elevState), b)
    {
      hide ElevatorControl.OptimalDirection, Bounds.HasAll;
      if elevState.lastFloor == b.min {
        elevState := elevState.(direction := Up);
      } else if elevState.lastFloor == b.max {
        elevState := elevState.(direction := Down);
      }
      if elevState.direction == None {
        var d := OptimalDirection();
        elevState := elevState.(direction := d);
      }
    }

    method StartElevator(direction: Direction, sensor: int)
      requires b.HasAll(elevState.All())
      modifies this`elevState, this`motor, this`doorLamp
      ensures Snapshot() == old(Snapshot()).Start(direction, sensor)
    {
      hide ElevatorControl.OptimalDirection, Bounds.HasAll, ElevatorState.All, Car.Start, Chosen;
      ghost var c := Snapshot();
      elevState := elevState.(direction := direction);
      var _ := UpdateAndGetFloor(sensor);
      SameRequests(b, c.es, elevState);
      StartIs(c, direction, sensor);
      ChooseDirection();
      motor := elevState.direction;
      doorLamp := false;
    }

    method SetButtonLamp(btn: Button, val: bool)
      modifies this`insideLamps, this`upLamps, this`downLamps
      ensures Snapshot() == old(Snapshot()).SetLamp(btn, val)
    {
      match btn.kind
      case TargetFloor => insideLamps := if val then insideLamps + {btn.floor} else insideLamps - {btn.floor};
      case CallUp => upLamps := if val then upLamps + {btn.floor} else upLamps - {btn.floor};
      case CallDown => downLamps := if val then downLamps + {btn.floor} else downLamps - {btn.floor};
    }

    method SetButtonLampAndFlag(btn: Button, val: bool)
      modifies this`insideLamps, this`upLamps, this`downLamps, this`elevState
      ensures Snapshot() == var c := old(Snapshot()).SetLamp(btn, val);
                            if btn.kind != TargetFloor then c
                            else c.(es := c.es.(inside := if val then c.es.inside + {btn.floor}
                                                          else c.es.inside - {btn.floor}))
    {
      SetButtonLamp(btn, val);
      if btn.kind == TargetFloor {
        elevState := elevState.(inside := if val then elevState.inside + {btn.floor}
                                          else elevState.inside - {btn.floor});
      }
    }

    method ClearDirectionButtonLamp(now: int)
      modifies this`elevState, this`upLamps, this`downLamps, this`insideLamps, this`lastStateUpdate, this`outState
      ensures Snapshot() == old(Snapshot()).ClearDirectionLamp(now)
    {
      var btn: Button;
      if elevState.lastFloor == b.max {
        btn := Button(CallDown, b.max);
      } else if elevState.lastFloor == b.min {
        btn := Button(CallUp, b.min);
      } else if elevState.direction != None {
        btn := Button(if elevState.direction == Down then CallDown else CallUp, elevState.lastFloor);
      } else {
        return;
      }
      if btn.kind == CallUp {
        if btn.floor in elevState.up {
          elevState := elevState.(up := elevState.up - {btn.floor});
          EmitStateChange(ServedUp, btn.floor, now);
        }
      } else {
        if btn.floor in elevState.down {
          elevState := elevState.(down := elevState.down - {btn.floor});
          EmitStateChange(ServedDown, btn.floor, now);
        }
      }
      SetButtonLamp(btn, false);
    }

    /** Polls every button of the panel. */
    method HandleButtons(pressed: set<Button>, now: int)
      modifies this
      ensures Snapshot() == old(Snapshot()).PressAll(floorButtons, pressed, now)
    {
      var k := 0;
      while k < |floorButtons|
        invariant 0 <= k <= |floorButtons|
        invariant Snapshot() == old(Snapshot()).PressAll(floorButtons[..k], pressed, now)
      {
        var btn := floorButtons[k];
        assert floorButtons[..k + 1][..k] == floorButtons[..k];
        if btn in pressed {
          if btn.floor !in Snapshot().Lamps(btn.kind) {
            SetButtonLampAndFlag(btn, true);
            EmitStateChange(PressedKind(btn.kind), btn.floor, now);
          }
          if btn.kind == TargetFloor {
            inFloorButtons := inFloorButtons + {btn.floor};
          }
        }
        k := k + 1;
      }
      assert floorButtons[..k] == floorButtons;
    }

    method ToggleStop(sensor: int, now: int)
      requires b.HasAll(elevState.All())
      modifies this
      ensures Snapshot() == old(Snapshot()).ToggleStop(sensor, now)
    {
      hide Car.Start, Car.Halt, Car.Observe, Car.Emit, Bounds.HasAll, ElevatorState.All;
      elevState := elevState.(stopped := !stopLamp);
      stopLamp := elevState.stopped;
      if elevState.stopped {
        StopElevator();
        mode := Stopped;
      } else {
        SameRequests(b, old(elevState), elevState);
        StartElevator(previousDirection, sensor);
        mode := Normal;
      }
      ReportFloor(sensor, now);
    }

    method HandleStop(stop: bool, sensor: int, now: int)
      requires b.HasAll(elevState.All())
      modifies this
      ensures Snapshot() == old(Snapshot()).StopButton(stop, sensor, now)
    {
      hide Car.ToggleStop;
      var stopLast := stopNow;
      stopNow := stop;
      if stopNow && stopNow != stopLast {
        ToggleStop(sensor, now);
      }
    }

    method ReportFloor(sensor: int, now: int)
      modifies this`elevState, this`lastStateUpdate, this`outState
      ensures Snapshot() == old(Snapshot()).Observe(sensor).Emit(OtherChange, sensor, now)
    {
      var floor := UpdateAndGetFloor(sensor);
      EmitStateChange(OtherChange, floor, now);
    }

    /** Refuses commands to others and to floors that do not exist. */
    method HandleCommand(command: Maybe<Command>, now: int) returns (ok: bool)
      modifies this
      ensures ok == old(Snapshot()).Accepts(command)
      ensures Snapshot() == if ok then old(Snapshot()).Obey(command, now) else old(Snapshot())
    {
      hide Car.SetLamp, Car.Emit;
      if command == Nothing {
        return true;
      }
      var Command(kind, target, floor) := command.value;
      if target != elevState.id && target != ANY_ID {
        return false;
      }
      if kind != Empty && !b.Has(floor) {
        return false;
      }
      match kind {
        case Empty =>
        case CallToFloorAndGoUp =>
          elevState := elevState.(up := elevState.up + {floor});
          SetButtonLamp(Button(CallUp, floor), true);
          EmitStateChange(GoingToServeUp, floor, now);
        case CallToFloorAndGoDown =>
          elevState := elevState.(down := elevState.down + {floor});
          SetButtonLamp(Button(CallDown, floor), true);
          EmitStateChange(GoingToServeDown, floor, now);
        case TurnOnLightUp => SetButtonLamp(Button(CallUp, floor), true);
        case TurnOffLightUp => SetButtonLamp(Button(CallUp, floor), false);
        case TurnOnLightDown => SetButtonLamp(Button(CallDown, floor), true);
        case TurnOffLightDown => SetButtonLamp(Button(CallDown, floor), false);
      }
      return true;
    }

    method HandleFloor(sensor: int, now: int) returns (currentFloor: int)
      modifies this
      ensures currentFloor == sensor && Snapshot() == old(Snapshot()).Arrive(sensor, now)
    {
      currentFloor := UpdateAndGetFloor(sensor);
      if currentFloor == b.max && elevState.direction == Up {
        StopElevator();
      }
      if currentFloor == b.min && elevState.direction == Down {
        StopElevator();
      }
      if currentFloor != prevFloor {
        EmitStateChange(OtherChange, currentFloor, now);
      }
    }

    method OpenDoor(floor: int, now: int)
      modifies this
      ensures Snapshot() == old(Snapshot()).OpenDoor(floor, now)
    {
      hide Car.Halt, Car.Emit;
      SetButtonLampAndFlag(Button(TargetFloor, floor), false);
      doorLamp := true;
      elevState := elevState.(doorOpen := true);
      mode := WaitingForInButton;
      doorWaitingStarted := now;
      StopElevator();
      EmitStateChange(Served, floor, now);
    }

    method Depart(currentFloor: int, now: int)
      requires b.HasAll(elevState.All())
      modifies this
      ensures Snapshot() == old(Snapshot()).Depart(currentFloor, now)
    {
      hide Car.Start, Car.ClearDirectionLamp, Car.PriorityInDirection;
      if elevState.All() != {} {
        if Snapshot().PriorityInDirection(previousDirection) {
          StartElevator(previousDirection, currentFloor);
        } else {
          StartElevator(None, currentFloor);
        }
        EmitStateChange(OtherChange, currentFloor, now);
      }
      ClearDirectionButtonLamp(now);
    }

    method ActNormal(currentFloor: int, now: int)
      requires mode == Normal && b.HasAll(elevState.All())
      modifies this
      ensures old(Snapshot()).Act(currentFloor, now) == Continue(Snapshot())
    {
      hide Car.OpenDoor, Car.Depart, Car.ShouldStop;
      if currentFloor != NO_FLOOR && Snapshot().ShouldStop(currentFloor) {
        OpenDoor(currentFloor, now);
      } else if elevState.direction == None {
        Depart(currentFloor, now);
      }
    }

    method CloseDoor(currentFloor: int, now: int)
      modifies this
      ensures Snapshot() == old(Snapshot()).CloseDoor(currentFloor, now)
    {
      doorLamp := false;
      elevState := elevState.(doorOpen := false);
      mode := Normal;
      EmitStateChange(OtherChange, currentFloor, now);
    }

    method ForgetCalls(floor: int, now: int)
      modifies this
      ensures Snapshot() == old(Snapshot()).ForgetCalls(floor, now)
    {
      hide Car.Emit;
      elevState := elevState.(down := elevState.down - {floor}, up := elevState.up - {floor});
      SetButtonLamp(Button(CallUp, floor), false);
      SetButtonLamp(Button(CallDown, floor), false);
      EmitStateChange(ServedUp, floor, now);
      EmitStateChange(ServedDown, floor, now);
    }

    method ActWaiting(currentFloor: int, now: int) returns (ok: bool)
      requires mode == WaitingForInButton
      modifies this
      ensures old(Snapshot()).Act(currentFloor, now) == Ended(if ok then Running else AssertionFailed, Snapshot())
    {
      hide Car.ClearDirectionLamp, Car.CloseDoor, Car.ForgetCalls;
      var timeout := doorWaitingStarted + WAIT_THRESHOLD < now;
      if inFloorButtons - inFloorButtonsLast != {} || timeout {
        CloseDoor(currentFloor, now);
        if timeout {
          if !b.Has(currentFloor) {
            return false;
          }
          ForgetCalls(currentFloor, now);
        } else {
          ClearDirectionButtonLamp(now);
        }
      }
      return true;
    }

    /** One iteration of the loop. */
    method Step(i: Inputs) returns (end: End)
      requires Valid() && ValidInputs(b, i)
      modifies this
      ensures old(Snapshot()).Iterate(i) == Ended(end, Snapshot())
      ensures Valid()
    {
      ghost var c := Snapshot();
      hide Safe, Car.Serve, Car.PressAll, Car.StopButton, Car.Accepts, PressFrame, Bounds.HasAll, ElevatorState.All;
      SafeRequests(c);
      IterateSafe(c, i);
      PollSafe(c, i);
      PollPanel(c, i.pressed, i.now);
      inFloorButtonsLast := inFloorButtons;
      inFloorButtons := {};
      HandleButtons(i.pressed, i.now);
      SafeRequests(Snapshot());
      HandleStop(i.stop, i.sensor, i.now);
      assert Snapshot() == c.Poll(i);
      if i.obstruction {
        return Hung;
      }
      end := StepServe(i);
    }

    /** The part of the iteration after the obstruction check. */
    method StepServe(i: Inputs) returns (end: End)
      requires Valid() && ValidInputs(b, i)
      modifies this
      ensures if !old(Snapshot()).Accepts(i.command)
              then end == AssertionFailed && Snapshot() == old(Snapshot())
              else old(Snapshot()).Serve(i) == Ended(end, Snapshot())
    {
      ghost var c := Snapshot();
      hide Safe, Car.Obey, Car.Arrive, Car.Accepts, Bounds.HasAll, ElevatorState.All;
      var ok := HandleCommand(i.command, i.now);
      if !ok {
        return AssertionFailed;
      }
      ObeySafe(c, i.command, i.now);
      ArriveSafe(Snapshot(), i.sensor, i.now);
      var currentFloor := HandleFloor(i.sensor, i.now);
      SafeRequests(Snapshot());
      if mode == Normal {
        ActNormal(currentFloor, i.now);
      } else if mode == WaitingForInButton {
        ok := ActWaiting(currentFloor, i.now);
        if !ok {
          return AssertionFailed;
        }
      }
      if lastStateUpdate + KEEP_ALIVE <= i.now {
        EmitStateChange(KeepAlive, currentFloor, i.now);
      }
      prevFloor := currentFloor;
      return Running;
    }
  }
}
