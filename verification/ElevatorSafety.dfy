/** Safety of the control loop over every run, including stop presses and restarts. */
module ElevatorSafety {
  import opened ElevatorTypes
  import opened ElevatorControl

  /** What holds at the end of every iteration. */
  ghost predicate Safe(c: Car) {
    && c.b.Valid()
    && c.Consistent()
    && c.motor == c.es.direction
    && (c.es.direction != None ==> c.mode == Normal && !c.doorLamp)
    && (c.mode == Stopped <==> c.stopLamp)
    && (c.es.direction == Up ==> c.es.lastFloor < c.b.max)
    && (c.es.direction == Down ==> c.es.lastFloor > c.b.min)
    && c.es.inside == c.insideLamps * Floors(c.b)
  }

  // ---- what the small steps change

  lemma ObserveIs(c: Car, sensor: int)
    ensures c.Observe(sensor) == c.(es := c.es.(lastFloor := if sensor == NO_FLOOR then c.es.lastFloor else sensor))
  {
  }

  lemma HaltIs(c: Car)
    ensures c.Halt() == c.(es := c.es.(direction := None), motor := None,
                           previous := if c.es.direction == None then c.previous else c.es.direction)
  {
  }

  lemma EmitIs(c: Car, kind: ChangeType, floor: int, now: int)
    ensures var d := c.Emit(kind, floor, now); d == c.(lastUpdate := now, sent := d.sent)
  {
  }

  lemma SetLampIs(c: Car, btn: Button, val: bool)
    ensures var d := c.SetLamp(btn, val);
            d == c.(insideLamps := d.insideLamps, upLamps := d.upLamps, downLamps := d.downLamps)
    ensures btn.kind != TargetFloor ==> c.SetLamp(btn, val).insideLamps == c.insideLamps
  {
  }

  /** The floor sensors report a floor of the shaft or nothing. */
  predicate ValidInputs(b: Bounds, i: Inputs) {
    i.sensor == NO_FLOOR || b.Has(i.sensor)
  }

  // ---- what polling the panel does

  /** `d` differs from `c` only in what a button press may change. */
  ghost predicate PressFrame(c: Car, d: Car) {
    d == c.(es := c.es.(inside := d.es.inside), insideLamps := d.insideLamps, upLamps := d.upLamps,
            downLamps := d.downLamps, held := d.held, sent := d.sent, lastUpdate := d.lastUpdate)
  }

  function PressedFloors(kind: ButtonType, btns: seq<Button>, pressed: set<Button>): set<int> {
    set btn <- btns | btn.kind == kind && btn in pressed :: btn.floor
  }

  function Single(btn: Button, kind: ButtonType, pressed: set<Button>): set<int> {
    if btn.kind == kind && btn in pressed then {btn.floor} else {}
  }

  lemma PressedFloorsSnoc(kind: ButtonType, btns: seq<Button>, btn: Button, pressed: set<Button>)
    ensures PressedFloors(kind, btns + [btn], pressed)
         == PressedFloors(kind, btns, pressed) + Single(btn, kind, pressed)
  {
  }

  /** `d` is `c` after the inside, up and down buttons of these floors were down in one poll. */
  ghost predicate Polled(c: Car, d: Car, inside: set<int>, up: set<int>, down: set<int>) {
    && PressFrame(c, d)
    && d.insideLamps == c.insideLamps + inside
    && d.upLamps == c.upLamps + up
    && d.downLamps == c.downLamps + down
    && d.held == c.held + inside
    && d.es.inside == c.es.inside + (inside - c.insideLamps)
  }

  lemma AddTo(lit: set<int>, more: set<int>, f: int)
    ensures lit + (more + {f}) == if f in lit + more then lit + more else lit + more + {f}
  {
  }

  lemma PressMeaning(c: Car, d: Car, inside: set<int>, up: set<int>, down: set<int>,
                     btn: Button, pressed: set<Button>, now: int)
    requires Polled(c, d, inside, up, down)
    ensures Polled(c, d.Press(btn, pressed, now), inside + Single(btn, TargetFloor, pressed),
                   up + Single(btn, CallUp, pressed), down + Single(btn, CallDown, pressed))
  {
    if btn in pressed {
      var f := btn.floor;
      match btn.kind
      case TargetFloor =>
        AddTo(c.insideLamps, inside, f);
        AddTo(c.held, inside, f);
        assert c.es.inside + (inside + {f} - c.insideLamps)
            == if f in c.insideLamps + inside then d.es.inside else d.es.inside + {f};
      case CallUp =>
        AddTo(c.upLamps, up, f);
      case CallDown =>
        AddTo(c.downLamps, down, f);
    }
  }

  /** Polling the buttons of a panel in any order with a fixed set of presses lights exactly the
      pressed lamps, and adds to the requests exactly the pressed floors whose lamp was dark. */
  lemma {:induction false} PressAllMeaning(c: Car, btns: seq<Button>, pressed: set<Button>, now: int)
    ensures Polled(c, c.PressAll(btns, pressed, now), PressedFloors(TargetFloor, btns, pressed),
                   PressedFloors(CallUp, btns, pressed), PressedFloors(CallDown, btns, pressed))
  {
    if btns != [] {
      var n := |btns| - 1;
      PressAllMeaning(c, btns[..n], pressed, now);
      PressMeaning(c, c.PressAll(btns[..n], pressed, now), PressedFloors(TargetFloor, btns[..n], pressed),
                   PressedFloors(CallUp, btns[..n], pressed), PressedFloors(CallDown, btns[..n], pressed),
                   btns[n], pressed, now);
      assert btns == btns[..n] + [btns[n]];
      PressedFloorsSnoc(TargetFloor, btns[..n], btns[n], pressed);
      PressedFloorsSnoc(CallUp, btns[..n], btns[n], pressed);
      PressedFloorsSnoc(CallDown, btns[..n], btns[n], pressed);
    }
  }

  predicate OnPanel(b: Bounds, top: int, btn: Button) {
    && b.min <= btn.floor <= top
    && (btn.kind == CallUp ==> btn.floor < b.max)
    && (btn.kind == CallDown ==> btn.floor > b.min)
  }

  lemma {:induction false} FloorButtonsMembers(b: Bounds, top: int)
    ensures forall btn :: btn in FloorButtons(b, top) <==> OnPanel(b, top, btn)
    decreases top - b.min
  {
    if top >= b.min {
      FloorButtonsMembers(b, top - 1);
    }
  }

  /** Polling keeps safety, halts or moves nothing, and never forgets a request. */
  lemma PollPanel(c: Car, pressed: set<Button>, now: int)
    requires Safe(c)
    ensures var d := c.(heldLast := c.held, held := {}).PressAll(FloorButtons(c.b, c.b.max), pressed, now);
            && Safe(d)
            && PressFrame(c.(heldLast := c.held), d)
            && c.es.inside <= d.es.inside
  {
    var c0 := c.(heldLast := c.held, held := {});
    var btns := FloorButtons(c.b, c.b.max);
    PressAllMeaning(c0, btns, pressed, now);
    FloorButtonsMembers(c.b, c.b.max);
    var p := PressedFloors(TargetFloor, btns, pressed);
    assert forall f <- p :: c.b.Has(f);
    var d := c0.PressAll(btns, pressed, now);
    assert d.es.inside == d.insideLamps * Floors(c.b);
  }

  // ---- one iteration

  lemma StopButtonSafe(c: Car, stop: bool, sensor: int, now: int)
    requires Safe(c) && (sensor == NO_FLOOR || c.b.Has(sensor))
    ensures Safe(c.StopButton(stop, sensor, now)) && c.StopButton(stop, sensor, now).b == c.b
  {
  }

  lemma ObeySafe(c: Car, command: Maybe<Command>, now: int)
    requires Safe(c) && c.Accepts(command)
    ensures Safe(c.Obey(command, now)) && c.Obey(command, now).b == c.b
  {
    if command.Just? && command.value.commandType != Empty {
      var floor := command.value.floor;
      CallSafe(c, floor);
      hide Safe, Car.SetLamp, Car.Emit, Car.Accepts, Bounds.Has;
      LampSafe(c, Button(CallUp, floor), true);
      LampSafe(c, Button(CallUp, floor), false);
      LampSafe(c, Button(CallDown, floor), true);
      LampSafe(c, Button(CallDown, floor), false);
      LitSafe(c.(es := c.es.(up := c.es.up + {floor})), Button(CallUp, floor), GoingToServeUp, now);
      LitSafe(c.(es := c.es.(down := c.es.down + {floor})), Button(CallDown, floor), GoingToServeDown, now);
    }
  }

  lemma CallSafe(c: Car, floor: int)
    requires Safe(c) && c.b.Has(floor)
    ensures Safe(c.(es := c.es.(up := c.es.up + {floor}))) && Safe(c.(es := c.es.(down := c.es.down + {floor})))
  {
  }

  lemma LampSafe(c: Car, btn: Button, val: bool)
    requires Safe(c) && btn.kind != TargetFloor
    ensures SafeHere(c, c.SetLamp(btn, val))
  {
    hide Car.SetLamp, Floors;
    SetLampIs(c, btn, val);
  }

  lemma LitSafe(c: Car, btn: Button, kind: ChangeType, now: int)
    requires Safe(c) && btn.kind != TargetFloor
    ensures SafeHere(c, c.SetLamp(btn, true).Emit(kind, btn.floor, now))
  {
    hide Car.SetLamp, Car.Emit, Floors;
    LampSafe(c, btn, true);
    EmitIs(c.SetLamp(btn, true), kind, btn.floor, now);
  }

  lemma ArriveSafe(c: Car, sensor: int, now: int)
    requires Safe(c) && (sensor == NO_FLOOR || c.b.Has(sensor))
    ensures Safe(c.Arrive(sensor, now)) && c.Arrive(sensor, now).b == c.b
    ensures sensor != NO_FLOOR ==> c.Arrive(sensor, now).es.lastFloor == sensor
  {
  }

  /** `d` is safe and in the same shaft and at the same floor as `c`. */
  ghost predicate SafeHere(c: Car, d: Car) {
    Safe(d) && d.b == c.b && d.es.lastFloor == c.es.lastFloor
  }

  lemma OpenDoorSafe(c: Car, sensor: int, now: int)
    requires Safe(c) && c.b.Has(sensor) && c.mode == Normal
    ensures SafeHere(c, c.OpenDoor(sensor, now))
  {
    var d := c.OpenDoor(sensor, now);
    assert d.es.inside == d.insideLamps * Floors(c.b);
  }

  lemma ClearDirectionLampSafe(c: Car, now: int)
    requires Safe(c)
    ensures SafeHere(c, c.ClearDirectionLamp(now))
  {
    hide Safe, Car.ClearCall;
    ClearCallSafe(c, CallDown, c.b.max, now);
    ClearCallSafe(c, CallUp, c.b.min, now);
    ClearCallSafe(c, CallDown, c.es.lastFloor, now);
    ClearCallSafe(c, CallUp, c.es.lastFloor, now);
  }

  lemma ClearCallSafe(c: Car, kind: ButtonType, floor: int, now: int)
    requires Safe(c) && kind != TargetFloor
    ensures SafeHere(c, c.ClearCall(kind, floor, now))
  {
    hide Car.SetLamp, Car.Emit, Floors;
    var up := c.(es := c.es.(up := c.es.up - {floor}));
    var down := c.(es := c.es.(down := c.es.down - {floor}));
    EmitIs(up, ServedUp, floor, now);
    EmitIs(down, ServedDown, floor, now);
    SetLampIs(c, Button(kind, floor), false);
    SetLampIs(up.Emit(ServedUp, floor, now), Button(kind, floor), false);
    SetLampIs(down.Emit(ServedDown, floor, now), Button(kind, floor), false);
  }

  lemma DepartSafe(c: Car, sensor: int, now: int)
    requires Safe(c) && (sensor == NO_FLOOR || c.es.lastFloor == sensor) && c.mode == Normal
    ensures SafeHere(c, c.Depart(sensor, now))
  {
    if c.es.All() != {} {
      ClearDirectionLampSafe(c.Start(if c.PriorityInDirection(c.previous) then c.previous else None, sensor)
                              .Emit(OtherChange, sensor, now), now);
    } else {
      ClearDirectionLampSafe(c, now);
    }
  }

  lemma CloseDoorSafe(c: Car, sensor: int, now: int)
    requires Safe(c) && c.mode == WaitingForInButton
    ensures SafeHere(c, c.CloseDoor(sensor, now))
    ensures SafeHere(c, c.CloseDoor(sensor, now).ForgetCalls(sensor, now))
    ensures SafeHere(c, c.CloseDoor(sensor, now).ClearDirectionLamp(now))
  {
    ClearDirectionLampSafe(c.CloseDoor(sensor, now), now);
  }

  lemma ActSafe(c: Car, sensor: int, now: int)
    requires Safe(c) && (sensor == NO_FLOOR || c.es.lastFloor == sensor)
    ensures c.Act(sensor, now).Continue? || c.Act(sensor, now).Failed?
    ensures SafeHere(c, c.Act(sensor, now).car)
  {
    match c.mode
    case Stopped =>
    case Normal =>
      if sensor != NO_FLOOR {
        OpenDoorSafe(c, sensor, now);
      }
      DepartSafe(c, sensor, now);
    case WaitingForInButton =>
      CloseDoorSafe(c, sensor, now);
  }

  lemma PollSafe(c: Car, i: Inputs)
    requires Safe(c) && ValidInputs(c.b, i)
    ensures Safe(c.Poll(i)) && c.Poll(i).b == c.b
  {
    PollPanel(c, i.pressed, i.now);
    var p := c.(heldLast := c.held, held := {}).PressAll(FloorButtons(c.b, c.b.max), i.pressed, i.now);
    StopButtonSafe(p, i.stop, i.sensor, i.now);
  }

  lemma ServeSafe(c: Car, i: Inputs)
    requires Safe(c) && ValidInputs(c.b, i) && c.Accepts(i.command)
    ensures Safe(c.Serve(i).car) && c.Serve(i).car.b == c.b
    ensures i.sensor != NO_FLOOR ==> c.Serve(i).car.es.lastFloor == i.sensor
  {
    hide Safe, Car.Obey, Car.Arrive, Car.Act, Car.Finish, Car.Accepts;
    var a := c.Obey(i.command, i.now).Arrive(i.sensor, i.now);
    ObeySafe(c, i.command, i.now);
    ArriveSafe(c.Obey(i.command, i.now), i.sensor, i.now);
    ActSafe(a, i.sensor, i.now);
    FinishSafe(a.Act(i.sensor, i.now).car, i.sensor, i.now);
  }

  lemma FinishSafe(c: Car, sensor: int, now: int)
    requires Safe(c)
    ensures SafeHere(c, c.Finish(sensor, now))
  {
  }

  /** Safety is kept by every iteration, also by those that end in a failed assertion. */
  lemma IterateSafe(c: Car, i: Inputs)
    requires Safe(c) && ValidInputs(c.b, i)
    ensures Safe(c.Iterate(i).car) && c.Iterate(i).car.b == c.b
    ensures c.Iterate(i).Continue? && i.sensor != NO_FLOOR ==> c.Iterate(i).car.es.lastFloor == i.sensor
  {
    PollSafe(c, i);
    if c.Poll(i).Accepts(i.command) {
      ServeSafe(c.Poll(i), i);
    }
  }

  /** Entering the loop makes any parked car safe. */
  lemma InitializeSafe(c: Car)
    requires Parked(c)
    ensures Safe(c.Initialize())
  {
    var d := c.Initialize();
    assert d.es.inside == d.insideLamps * Floors(c.b);
  }

  /** It requests the inside floors that were requested, also in a recovered state, or lit, and forgets no hall
      call; at each floor of the shaft a lamp is then lit exactly if the car has the request. */
  lemma InitializeMeaning(c: Car, floor: int)
    requires c.b.Has(floor)
    ensures var d := c.Initialize();
            && d.es.up == c.es.up && d.es.down == c.es.down && d.es.lastFloor == c.es.lastFloor && d.es.id == c.es.id
            && (floor in d.es.inside <==> floor in c.es.inside || floor in c.insideLamps)
            && (floor in d.insideLamps <==> floor in d.es.inside)
            && (floor in d.upLamps <==> floor in d.es.up)
            && (floor in d.downLamps <==> floor in d.es.down)
            && (c.stopLamp ==> d.mode == Stopped && d.es.stopped)
  {
  }
}
