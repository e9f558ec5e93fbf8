/**
 Where a car stops. In state Normal the door opens at a sensed floor exactly when there is something to serve
 in the direction of travel; so a call ahead of the car is opened the first time that the car reaches its
 floor. And how long the door then stays open.
*/
module ElevatorStops {
  import opened ElevatorTypes
  import opened ElevatorControl
  import opened ElevatorHallCalls
  import opened ElevatorRuns
  import opened ElevatorSafety
  import opened ElevatorService

  /** The car stands at this floor with its door open. */
  predicate Opened(c: Car, floor: int) {
    c.mode == WaitingForInButton && c.doorLamp && c.es.lastFloor == floor && c.es.direction == None && c.motor == None
  }

  /** The car goes on, or stays halted, with its door closed. */
  predicate GoesOn(c: Car, direction: Direction) {
    c.mode == Normal && (direction != None ==> !c.doorLamp && c.es.direction == c.motor == direction)
  }

  // ---- one iteration

  lemma OpenDoorOpens(a: Car, sensor: int, now: int)
    requires a.es.lastFloor == sensor
    ensures Opened(a.OpenDoor(sensor, now), sensor)
  {
  }

  lemma DepartGoesOn(a: Car, sensor: int, now: int)
    requires Safe(a) && a.mode == Normal && a.es.lastFloor == sensor
    ensures a.Depart(sensor, now).mode == Normal
  {
    DepartLocates(a, sensor, now);
  }

  /** What the car has to stop for at this floor: somebody inside who wants to get out, a call in the direction
      it moves in, or a call in the other direction with no request left further on. A car without direction
      stops for any request at an end floor, and elsewhere only for somebody inside. */
  ghost predicate ToServe(a: Car, floor: int) {
    var all := a.es.inside + a.es.up + a.es.down;
    || floor in a.es.inside
    || match a.es.direction
       case Up => floor in a.es.up || (floor in a.es.down && forall g :: g in all ==> g <= floor)
       case Down => floor in a.es.down || (floor in a.es.up && forall g :: g in all ==> g >= floor)
       case None => (floor == a.b.min || floor == a.b.max) && floor in all
  }

  lemma ToServeIs(a: Car, floor: int)
    ensures a.ShouldStop(floor) <==> ToServe(a, floor)
  {
  }

  lemma ActStops(a: Car, sensor: int, now: int)
    requires Safe(a) && a.mode == Normal && sensor != NO_FLOOR && a.es.lastFloor == sensor
    ensures a.Act(sensor, now).Continue?
    ensures var d := a.Act(sensor, now).car;
            if ToServe(a, sensor) then Opened(d, sensor) else GoesOn(d, a.es.direction)
  {
    SafeCar(a);
    hide Safe, ToServe, Opened, Car.ShouldStop, Car.OpenDoor, Car.Depart;
    ToServeIs(a, sensor);
    OpenDoorOpens(a, sensor, now);
    DepartGoesOn(a, sensor, now);
  }

  lemma FinishStays(d: Car, sensor: int, now: int, direction: Direction)
    ensures Opened(d.Finish(sensor, now), sensor) <==> Opened(d, sensor)
    ensures GoesOn(d.Finish(sensor, now), direction) <==> GoesOn(d, direction)
  {
  }

  /** In every iteration in which the car is in state Normal at a floor, it opens its door if there is something
      to serve. Otherwise a moving car keeps moving, its door closed. */
  lemma StopsExactly(c: Car, i: Inputs)
    requires Safe(c) && DoorShown(c) && ValidInputs(c.b, i) && i.sensor != NO_FLOOR
    requires c.Iterate(i).Continue? && Acting(c, i).mode == Normal
    ensures var a, d := Acting(c, i), c.Iterate(i).car;
            if ToServe(a, i.sensor) then Opened(d, i.sensor) else GoesOn(d, a.es.direction)
  {
    IterateIs(c, i);
    ActingSafe(c, i);
    var a := Acting(c, i);
    hide Safe, DoorShown, Acting, ToServe, Opened, GoesOn, Car.Iterate, Car.Poll, Car.Accepts, Car.Act, Car.Finish;
    ActStops(a, i.sensor, i.now);
    FinishStays(a.Act(i.sensor, i.now).car, i.sensor, i.now, a.es.direction);
  }

  // ---- runs without stop button and obstruction

  /** A call up from a floor above the car, or a call down from one below. */
  predicate Ahead(c: Car, kind: ButtonType, floor: int) {
    && kind != TargetFloor && floor in CallsOf(c, kind)
    && if kind == CallUp then c.es.lastFloor < floor else floor < c.es.lastFloor
  }

  lemma CalmParts(w: World, i: Inputs, w': World)
    requires Located(w) && Step(w, i, w') && Calm(w.car, i)
    ensures Safe(w.car) && w.car.mode != Stopped && Located(w') && ValidInputs(w.car.b, i) && Reaches(w.car, i.sensor)
    ensures w.car.Iterate(i) == Continue(w'.car)
    ensures w'.car.es.lastFloor == (if i.sensor == NO_FLOOR then w.car.es.lastFloor else i.sensor)
  {
    DriveReaches(w, i, w');
    CalmStep(w, i, w');
    CalmIterate(w.car, i);
    hide Safe, Reaches, Pays, Calm, Car.Iterate;
  }

  /** Until the car is at the floor of the call, the call stays ahead. */
  lemma StaysAhead(w: World, i: Inputs, w': World, kind: ButtonType, floor: int)
    requires Located(w) && Step(w, i, w') && Calm(w.car, i) && Ahead(w.car, kind, floor) && i.sensor != floor
    ensures Located(w') && Ahead(w'.car, kind, floor)
  {
    CalmParts(w, i, w');
    IterateDrops(w.car, i);
    hide Safe, Located, Step, Calm, Car.Iterate, DroppedInside;
    assert floor !in (w.car.es.up - w'.car.es.up) + (w.car.es.down - w'.car.es.down) || w'.car.es.lastFloor == floor;
  }

  /** A car that comes to the floor of a call ahead moves in the direction of the call. */
  lemma ComesAlong(c: Car, i: Inputs, kind: ButtonType, floor: int)
    requires Safe(c) && c.mode != Stopped && Reaches(c, i.sensor) && ValidInputs(c.b, i) && Calm(c, i)
    requires Ahead(c, kind, floor) && i.sensor == floor
    ensures var a := Acting(c, i);
            && a.mode == Normal && ToServe(a, floor)
  {
    PollSafe(c, i);
    PollKeeps(c, i);
    SafeMotion(c);
    hide Safe, Car.Poll, Car.Obey, Car.Arrive, Car.Accepts;
    var p := c.Poll(i);
    ObeyKeeps(p, i.command, i.now);
    ArriveIs(p.Obey(i.command, i.now), i.sensor, i.now);
  }

  lemma {:induction false} AheadAlways(ws: seq<World>, inputs: seq<Inputs>, kind: ButtonType, floor: int)
    requires CalmRun(ws, inputs) && Located(ws[0]) && Ahead(ws[0].car, kind, floor)
    requires forall m :: 0 <= m < |inputs| ==> inputs[m].sensor != floor
    ensures var w := ws[|ws| - 1]; Located(w) && Ahead(w.car, kind, floor)
    decreases |ws|
  {
    if inputs != [] {
      var n := |inputs| - 1;
      AheadAlways(ws[..n + 1], inputs[..n], kind, floor);
      hide Located, Step, Calm, Ahead;
      StaysAhead(ws[n], inputs[n], ws[n + 1], kind, floor);
    }
  }

  /** In every run without stop button and obstruction, whatever else is pressed and commanded and whichever way
      the car goes in between: a pending call up from a floor above the car, or down from one below, is opened
      for the first time that the car is at its floor. */
  lemma CallAheadIsOpened(ws: seq<World>, inputs: seq<Inputs>, kind: ButtonType, floor: int)
    requires CalmRun(ws, inputs) && Located(ws[0]) && Ahead(ws[0].car, kind, floor) && inputs != []
    requires forall m :: 0 <= m < |inputs| - 1 ==> inputs[m].sensor != floor
    requires inputs[|inputs| - 1].sensor == floor
    ensures Opened(ws[|ws| - 1].car, floor)
  {
    var n := |inputs| - 1;
    AheadAlways(ws[..n + 1], inputs[..n], kind, floor);
    var c, i := ws[n].car, inputs[n];
    hide Located, Step, Calm, Ahead, ToServe, Opened;
    CalmParts(ws[n], i, ws[n + 1]);
    ComesAlong(c, i, kind, floor);
    MovesUnopened(c, kind, floor, i.sensor);
    StopsExactly(c, i);
  }

  lemma MovesUnopened(c: Car, kind: ButtonType, floor: int, sensor: int)
    requires Safe(c) && Ahead(c, kind, floor) && Reaches(c, floor) && sensor == floor
    ensures DoorShown(c) && sensor != NO_FLOOR
  {
  }

  // ---- the open door

  /** Somebody inside presses a button that was not held in the iteration before. */
  ghost predicate PressedInside(c: Car, i: Inputs) {
    exists f :: c.b.Has(f) && Button(TargetFloor, f) in i.pressed && f !in c.held
  }

  predicate Closed(c: Car) {
    c.mode == Normal && !c.doorLamp
  }

  predicate StillOpen(c: Car, since: int) {
    c.mode == WaitingForInButton && c.doorLamp && c.waitingSince == since
  }

  lemma PollHeld(c: Car, i: Inputs)
    requires !i.stop
    ensures var p := c.Poll(i); p.held - p.heldLast != {} <==> PressedInside(c, i)
  {
    var c0, btns := c.(heldLast := c.held, held := {}), FloorButtons(c.b, c.b.max);
    var p := c.Poll(i);
    FloorButtonsMembers(c.b, c.b.max);
    PressAllMeaning(c0, btns, i.pressed, i.now);
    hide FloorButtons, Car.PressAll;
    var inside := PressedFloors(TargetFloor, btns, i.pressed);
    assert p.held == inside && p.heldLast == c.held;
    assert forall f :: f in inside <==> c.b.Has(f) && Button(TargetFloor, f) in i.pressed;
    if f :| c.b.Has(f) && Button(TargetFloor, f) in i.pressed && f !in c.held {
      assert f in p.held - p.heldLast;
    }
  }

  lemma LaterHeld(p: Car, i: Inputs)
    ensures var a := p.Obey(i.command, i.now).Arrive(i.sensor, i.now); a.held == p.held && a.heldLast == p.heldLast
  {
    ObeyFrame(p, i.command, i.now);
    ArriveHeld(p.Obey(i.command, i.now), i.sensor, i.now);
    hide Car.Obey, Car.Arrive;
  }

  lemma ArriveHeld(p: Car, sensor: int, now: int)
    ensures p.Arrive(sensor, now).held == p.held && p.Arrive(sensor, now).heldLast == p.heldLast
  {
    hide Car.Halt, Car.Observe, Car.Emit;
    var o := p.Observe(sensor);
    ObserveIs(p, sensor);
    HaltIs(o);
    HaltIs(o.Halt());
    EmitIs(o, OtherChange, sensor, now);
    EmitIs(o.Halt(), OtherChange, sensor, now);
  }

  lemma ActCloses(a: Car, sensor: int, now: int)
    requires a.mode == WaitingForInButton && a.doorLamp && a.Act(sensor, now).Continue?
    ensures var d := a.Act(sensor, now).car;
            if a.waitingSince + 5000 < now || a.held - a.heldLast != {} then Closed(d) else StillOpen(d, a.waitingSince)
  {
    hide Car.ClearDirectionLamp;
    ClearDirectionLampKeeps(a.CloseDoor(sensor, now), now);
    ClearDirectionLampDoor(a.CloseDoor(sensor, now), now);
  }

  lemma ClearDirectionLampDoor(c: Car, now: int)
    ensures c.ClearDirectionLamp(now).doorLamp == c.doorLamp
  {
    hide Car.ClearCall;
    ClearCallDoor(c, CallDown, c.b.max, now);
    ClearCallDoor(c, CallUp, c.b.min, now);
    ClearCallDoor(c, CallDown, c.es.lastFloor, now);
    ClearCallDoor(c, CallUp, c.es.lastFloor, now);
  }

  lemma ClearCallDoor(c: Car, kind: ButtonType, floor: int, now: int)
    ensures c.ClearCall(kind, floor, now).doorLamp == c.doorLamp
  {
  }

  /** The open door closes in the first iteration in which somebody inside has just pressed a button, or more
      than five seconds have passed since it opened; until then it stays open. */
  lemma ClosesExactly(c: Car, i: Inputs)
    requires Safe(c) && DoorShown(c) && c.mode == WaitingForInButton && Calm(c, i) && ValidInputs(c.b, i)
    requires c.Iterate(i).Continue?
    ensures var d := c.Iterate(i).car;
            if c.waitingSince + 5000 < i.now || PressedInside(c, i) then Closed(d) else StillOpen(d, c.waitingSince)
  {
    SafeMotion(c);
    ActingWaits(c, i);
    IterateIs(c, i);
    PollHeld(c, i);
    LaterHeld(c.Poll(i), i);
    var a := Acting(c, i);
    hide Safe, DoorShown, PressedInside, Car.Iterate, Car.Poll, Car.Obey, Car.Arrive, Car.Accepts, Car.Act, Car.Finish;
    ActCloses(a, i.sensor, i.now);
    FinishKeeps(a.Act(i.sensor, i.now).car, i.sensor, i.now);
  }

  lemma ActingWaits(c: Car, i: Inputs)
    requires Safe(c) && DoorShown(c) && c.mode == WaitingForInButton && Calm(c, i) && ValidInputs(c.b, i)
    ensures var a := Acting(c, i);
            a.mode == WaitingForInButton && a.doorLamp && a.waitingSince == c.waitingSince
  {
    SafeMotion(c);
    PollKeeps(c, i);
    ActingSafe(c, i);
    hide Safe, Car.Poll, Car.Obey, Car.Arrive, Car.Accepts;
    ObeyKeeps(c.Poll(i), i.command, i.now);
    ArriveIs(c.Poll(i).Obey(i.command, i.now), i.sensor, i.now);
  }

  lemma FinishKeeps(d: Car, sensor: int, now: int)
    ensures var e := d.Finish(sensor, now);
            e.mode == d.mode && e.doorLamp == d.doorLamp && e.waitingSince == d.waitingSince && e.es == d.es
  {
  }

  // ---- the stop button

  /** The stop lamp changes when the button goes down, and not while it is held. */
  lemma StopLampChanges(c: Car, i: Inputs)
    ensures c.Poll(i).stopLamp == if i.stop && !c.stopNow then !c.stopLamp else c.stopLamp
    ensures c.Poll(i).stopNow == i.stop
  {
    var c0, btns := c.(heldLast := c.held, held := {}), FloorButtons(c.b, c.b.max);
    PressAllMeaning(c0, btns, i.pressed, i.now);
    hide FloorButtons, Car.PressAll, Car.Start, Car.Halt;
    var p := c0.PressAll(btns, i.pressed, i.now).(stopNow := i.stop);
    var e := p.(es := p.es.(stopped := !p.stopLamp), stopLamp := !p.stopLamp);
    HaltIs(e);
    StartKeepsStop(e, p.previous, i.sensor);
  }

  lemma StartKeepsStop(c: Car, direction: Direction, sensor: int)
    ensures c.Start(direction, sensor).stopLamp == c.stopLamp && c.Start(direction, sensor).stopNow == c.stopNow
  {
    hide OptimalDirection;
  }

  /** A moving car that is stopped and released goes on in the direction it had, with the requests it had. */
  lemma StopAndGoOn(c: Car, sensor: int, now: int, sensor': int, now': int)
    requires Safe(c) && c.es.direction != None
    requires sensor in {NO_FLOOR, c.es.lastFloor} && sensor' in {NO_FLOOR, c.es.lastFloor}
    ensures var d := c.ToggleStop(sensor, now);
            var e := d.ToggleStop(sensor', now');
            && d.mode == Stopped && d.stopLamp && d.motor == d.es.direction == None
            && e.mode == Normal && !e.stopLamp && e.motor == e.es.direction == c.es.direction
            && e.es.lastFloor == c.es.lastFloor
            && e.es.inside == c.es.inside && e.es.up == c.es.up && e.es.down == c.es.down
  {
    hide OptimalDirection, Floors;
  }
}
