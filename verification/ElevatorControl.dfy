/**
 The control loop of one elevator as functions on values: one function per helper of the loop
 and `Iterate` for one pass through it. Module ElevatorLoop is the imperative program that these
 functions specify; ElevatorSafety and ElevatorService prove what the loop is for.
*/
module ElevatorControl {
  import opened ElevatorTypes

  const KEEP_ALIVE: int := 500
  const WAIT_THRESHOLD: int := 5000

  /** The three states of the loop. */
  datatype Mode = Normal | WaitingForInButton | Stopped

  /** Everything one iteration reads from outside: one sample of each sensor, one clock reading
      and at most one command. */
  datatype Inputs = Inputs(
    pressed: set<Button>,
    stop: bool,
    obstruction: bool,
    command: Maybe<Command>,
    sensor: int,
    now: int)

  /** How an iteration ends: normally, in the endless loop on an obstruction, or by a failed
      assertion (with the state reached so far). */
  datatype Outcome = Continue(car: Car) | Obstructed(car: Car) | Failed(car: Car)

  predicate AnyHigher(floors: set<int>, floor: int) { exists f <- floors :: f > floor }

  predicate AnyLower(floors: set<int>, floor: int) { exists f <- floors :: f < floor }

  function Above(floors: set<int>, floor: int): set<int> { set f <- floors | f > floor }

  function Below(floors: set<int>, floor: int): set<int> { set f <- floors | f < floor }

  /** The direction with more requests, inside requests alone when there are any; up on a tie. */
  function OptimalDirection(inside: set<int>, outside: set<int>, floor: int): Direction {
    var serve := if inside != {} then inside else outside;
    if |Above(serve, floor)| >= |Below(serve, floor)| then Up else Down
  }

  function Floors(b: Bounds): set<int> { set f | b.min <= f <= b.max && b.Has(f) }

  function ButtonsOfFloor(b: Bounds, floor: int): seq<Button> {
    [Button(TargetFloor, floor)]
    + (if floor < b.max then [Button(CallUp, floor)] else [])
    + (if floor > b.min then [Button(CallDown, floor)] else [])
  }

  /** The buttons of the panel that the loop polls, floor by floor from the lowest to `top`. */
  function FloorButtons(b: Bounds, top: int): seq<Button>
    decreases top - b.min
  {
    if top < b.min then [] else FloorButtons(b, top - 1) + ButtonsOfFloor(b, top)
  }

  function PressedKind(kind: ButtonType): ChangeType {
    match kind
    case CallUp => ButtonUpPressed
    case CallDown => ButtonDownPressed
    case TargetFloor => InsideButtonPressed
  }

  /** The elevator object, the lamps and motor of its driver, and the locals of the loop. */
  datatype Car = Car(
    b: Bounds,
    es: ElevatorState,
    previous: Direction,
    lastUpdate: int,
    insideLamps: set<int>,
    upLamps: set<int>,
    downLamps: set<int>,
    stopLamp: bool,
    doorLamp: bool,
    motor: Direction,
    mode: Mode,
    stopNow: bool,
    held: set<int>,
    heldLast: set<int>,
    prevFloor: int,
    waitingSince: int,
    sent: seq<StateChange>) {

    /** The consistency check at the head of every iteration. */
    predicate Consistent() {
      b.min < b.max && 0 <= es.id && b.Has(es.lastFloor)
      && b.HasAll(es.inside) && b.HasAll(es.up) && b.HasAll(es.down)
    }

    function Emit(kind: ChangeType, floor: int, now: int): Car {
      this.(lastUpdate := now, sent := sent + [StateChange(kind, floor, es.(timestamp := now))])
    }

    function Observe(sensor: int): Car {
      if sensor != NO_FLOOR then this.(es := es.(lastFloor := sensor)) else this
    }

    function Halt(): Car {
      this.(previous := if es.direction != None then es.direction else previous,
            es := es.(direction := None),
            motor := None)
    }

    predicate PriorityInDirection(direction: Direction) {
      match direction
      case Down => AnyLower(es.inside, es.lastFloor)
      case Up => AnyHigher(es.inside, es.lastFloor)
      case None => false
    }

    function Start(direction: Direction, sensor: int): Car {
      var c := Observe(sensor);
      var d := if c.es.lastFloor == b.min then Up
               else if c.es.lastFloor == b.max then Down
               else if direction == None then OptimalDirection(c.es.inside, c.es.up + c.es.down, c.es.lastFloor)
               else direction;
      c.(es := c.es.(direction := d), motor := d, doorLamp := false)
    }

    predicate ShouldStop(floor: int) {
      floor in es.inside
      || match es.direction
         case Up => floor in es.up || (!AnyHigher(es.All(), floor) && floor in es.All())
         case Down => floor in es.down || (!AnyLower(es.All(), floor) && floor in es.All())
         case None => (floor == b.min || floor == b.max) && floor in es.All()
    }

    function Lamps(kind: ButtonType): set<int> {
      match kind
      case CallUp => upLamps
      case CallDown => downLamps
      case TargetFloor => insideLamps
    }

    function SetLamp(btn: Button, val: bool): Car {
      var lamps := Lamps(btn.kind);
      var lamps' := if val then lamps + {btn.floor} else lamps - {btn.floor};
      match btn.kind
      case CallUp => this.(upLamps := lamps')
      case CallDown => this.(downLamps := lamps')
      case TargetFloor => this.(insideLamps := lamps')
    }

    /** Switches off the call button of the current floor that the car is about to honour. */
    function ClearDirectionLamp(now: int): Car {
      if es.lastFloor == b.max then ClearCall(CallDown, b.max, now)
      else if es.lastFloor == b.min then ClearCall(CallUp, b.min, now)
      else match es.direction
           case None => this
           case Down => ClearCall(CallDown, es.lastFloor, now)
           case Up => ClearCall(CallUp, es.lastFloor, now)
    }

    function ClearCall(kind: ButtonType, floor: int, now: int): Car {
      var c :=
        if kind == CallUp then
          if floor in es.up then this.(es := es.(up := es.up - {floor})).Emit(ServedUp, floor, now) else this
        else
          if floor in es.down then this.(es := es.(down := es.down - {floor})).Emit(ServedDown, floor, now) else this;
      c.SetLamp(Button(kind, floor), false)
    }

    /** One button of the panel: a press counts when its lamp was dark; pressed inside buttons
        are remembered whether or not they were lit. */
    function Press(btn: Button, pressed: set<Button>, now: int): Car {
      if btn !in pressed then this
      else
        var c :=
          if btn.floor !in Lamps(btn.kind) then
            var lit := SetLamp(btn, true);
            var noted := if btn.kind == TargetFloor
                         then lit.(es := lit.es.(inside := lit.es.inside + {btn.floor})) else lit;
            noted.Emit(PressedKind(btn.kind), btn.floor, now)
          else this;
        if btn.kind == TargetFloor then c.(held := c.held + {btn.floor}) else c
    }

    function PressAll(btns: seq<Button>, pressed: set<Button>, now: int): Car {
      if btns == [] then this
      else PressAll(btns[..|btns| - 1], pressed, now).Press(btns[|btns| - 1], pressed, now)
    }

    /** The stop button toggles the stop lamp and halts or resumes. */
    function ToggleStop(sensor: int, now: int): Car {
      var lamp := !stopLamp;
      var c := this.(es := es.(stopped := lamp), stopLamp := lamp);
      var d := if lamp then c.Halt().(mode := Stopped)
               else c.Start(previous, sensor).(mode := Normal);
      d.Observe(sensor).Emit(OtherChange, sensor, now)
    }

    /** It acts on its rising edge. */
    function StopButton(stop: bool, sensor: int, now: int): Car {
      var c := this.(stopNow := stop);
      if !stop || stopNow then c else c.ToggleStop(sensor, now)
    }

    /** The assertions that a command has to pass. */
    predicate Accepts(command: Maybe<Command>) {
      command.Just? ==>
        && (command.value.target == es.id || command.value.target == ANY_ID)
        && (command.value.commandType != Empty ==> b.Has(command.value.floor))
    }

    function Obey(command: Maybe<Command>, now: int): Car {
      match command
      case Nothing => this
      case Just(Command(kind, _, floor)) =>
        match kind
        case Empty => this
        case CallToFloorAndGoUp =>
          this.(es := es.(up := es.up + {floor})).SetLamp(Button(CallUp, floor), true)
              .Emit(GoingToServeUp, floor, now)
        case CallToFloorAndGoDown =>
          this.(es := es.(down := es.down + {floor})).SetLamp(Button(CallDown, floor), true)
              .Emit(GoingToServeDown, floor, now)
        case TurnOnLightUp => SetLamp(Button(CallUp, floor), true)
        case TurnOffLightUp => SetLamp(Button(CallUp, floor), false)
        case TurnOnLightDown => SetLamp(Button(CallDown, floor), true)
        case TurnOffLightDown => SetLamp(Button(CallDown, floor), false)
    }

    /** Takes the floor sample, halts at either end of the shaft and reports a changed sample. */
    function Arrive(sensor: int, now: int): Car {
      var c := Observe(sensor);
      var c1 := if sensor == b.max && c.es.direction == Up then c.Halt() else c;
      var c2 := if sensor == b.min && c1.es.direction == Down then c1.Halt() else c1;
      if sensor != prevFloor then c2.Emit(OtherChange, sensor, now) else c2
    }

    function OpenDoor(floor: int, now: int): Car {
      var c := this.(insideLamps := insideLamps - {floor},
                     es := es.(inside := es.inside - {floor}, doorOpen := true),
                     doorLamp := true, mode := WaitingForInButton, waitingSince := now);
      c.Halt().Emit(Served, floor, now)
    }

    function Depart(sensor: int, now: int): Car {
      var c := if es.All() == {} then this
               else Start(if PriorityInDirection(previous) then previous else None, sensor)
                    .Emit(OtherChange, sensor, now);
      c.ClearDirectionLamp(now)
    }

    function CloseDoor(sensor: int, now: int): Car {
      this.(doorLamp := false, es := es.(doorOpen := false), mode := Normal).Emit(OtherChange, sensor, now)
    }

    function ForgetCalls(floor: int, now: int): Car {
      this.(es := es.(up := es.up - {floor}, down := es.down - {floor}),
            upLamps := upLamps - {floor}, downLamps := downLamps - {floor})
          .Emit(ServedUp, floor, now).Emit(ServedDown, floor, now)
    }

    predicate TimedOut(now: int) { waitingSince + WAIT_THRESHOLD < now }

    /** The part of the iteration that depends on the mode. */
    function Act(sensor: int, now: int): Outcome {
      match mode
      case Stopped => Continue(this)
      case Normal =>
        if sensor != NO_FLOOR && ShouldStop(sensor) then Continue(OpenDoor(sensor, now))
        else if es.direction == None then Continue(Depart(sensor, now))
        else Continue(this)
      case WaitingForInButton =>
        if TimedOut(now) then
          // the floor sets refuse "no floor"
          if b.Has(sensor) then Continue(CloseDoor(sensor, now).ForgetCalls(sensor, now))
          else Failed(CloseDoor(sensor, now))
        else if held - heldLast != {} then Continue(CloseDoor(sensor, now).ClearDirectionLamp(now))
        else Continue(this)
    }

    function Finish(sensor: int, now: int): Car {
      var c := if lastUpdate + KEEP_ALIVE <= now then Emit(KeepAlive, sensor, now) else this;
      c.(prevFloor := sensor)
    }

    /** An iteration up to the obstruction check. */
    function Poll(i: Inputs): Car {
      this.(heldLast := held, held := {})
          .PressAll(FloorButtons(b, b.max), i.pressed, i.now)
          .StopButton(i.stop, i.sensor, i.now)
    }

    /** The rest of an iteration once its command is accepted. */
    function Serve(i: Inputs): Outcome {
      match Obey(i.command, i.now).Arrive(i.sensor, i.now).Act(i.sensor, i.now)
      case Continue(d) => Continue(d.Finish(i.sensor, i.now))
      case Failed(d) => Failed(d)
      case Obstructed(d) => Obstructed(d)
    }

    /** One pass through the loop. */
    function Iterate(i: Inputs): Outcome {
      if !Consistent() then Failed(this.(heldLast := held, held := {}))
      else
        var c := Poll(i);
        if i.obstruction then Obstructed(c)
        else if !c.Accepts(i.command) then Failed(c)
        else c.Serve(i)
    }

    /** Entering the loop: locals are fresh, inside requests and lamps are merged, call lamps
        follow the calls of this elevator. */
    function Initialize(): Car {
      var here := Floors(b);
      var inside := es.inside + (insideLamps * here);
      this.(es := es.(inside := inside, stopped := es.stopped || stopLamp, doorOpen := es.doorOpen || doorLamp),
            insideLamps := insideLamps + (inside * here),
            upLamps := (upLamps - here) + (es.up * here),
            downLamps := (downLamps - here) + (es.down * here),
            mode := if stopLamp then Stopped else Normal,
            stopNow := false, held := {}, heldLast := {}, prevFloor := NO_FLOOR, waitingSince := 0)
    }

    /** A failed assertion unwinds the loop, which halts the car, and the loop is entered again. */
    function Restart(): Car { Halt().Initialize() }
  }

  /** A car before its loop is entered: newly constructed or recovered, always halted, over
      hardware whose lamps may be in any position. */
  predicate Parked(c: Car) {
    c.b.Valid() && c.Consistent() && c.es.direction == None && c.motor == None
  }
}
