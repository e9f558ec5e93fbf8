/**
 What a hall call gets. It leaves its set, and is reported as served, when the door has been open at its
 floor, but also when an idle car departs from its floor without having opened the door. This module says
 exactly when the second happens.
*/
module ElevatorHallCalls {
  import opened ElevatorTypes
  import opened ElevatorControl
  import opened ElevatorReports
  import opened ElevatorRuns
  import opened ElevatorSafety
  import opened ElevatorService

  /** The hall calls up or down. */
  function CallsOf(c: Car, kind: ButtonType): set<int>
    requires kind != TargetFloor
  {
    if kind == CallUp then c.es.up else c.es.down
  }

  /** The car that the mode-dependent part of an iteration sees; a refused command comes no further than the
      poll. */
  function Acting(c: Car, i: Inputs): Car {
    var p := c.Poll(i);
    if p.Accepts(i.command) then p.Obey(i.command, i.now).Arrive(i.sensor, i.now) else p
  }

  /** The call of the current floor that a departing car takes as honoured: the only one at an end floor, the
      one in its direction elsewhere. */
  function Honoured(c: Car): ButtonType {
    if c.es.lastFloor == c.b.max then CallDown
    else if c.es.lastFloor == c.b.min then CallUp
    else
      var direction := if c.PriorityInDirection(c.previous) then c.previous
                       else OptimalDirection(c.es.inside, c.es.up + c.es.down, c.es.lastFloor);
      if direction == Down then CallDown else CallUp
  }

  /** An idle car with a dark door lamp that does not open its door departs from the floor of the call, in the
      direction of the call. */
  predicate DepartsFrom(c: Car, i: Inputs, kind: ButtonType, floor: int)
    requires kind != TargetFloor
  {
    var a := Acting(c, i);
    && !i.obstruction && c.Poll(i).Accepts(i.command)
    && a.mode == Normal && a.es.direction == None && !a.doorLamp
    && !(i.sensor != NO_FLOOR && a.ShouldStop(i.sensor))
    && a.es.lastFloor == floor && kind == Honoured(a) && floor in CallsOf(a, kind)
  }

  /** The door lamp is lit with the car at this floor. */
  predicate OpenAt(c: Car, floor: int) {
    c.doorLamp && c.es.lastFloor == floor
  }

  /** While the loop waits for a button the door lamp is lit. */
  predicate DoorShown(c: Car) {
    c.mode == WaitingForInButton ==> c.doorLamp
  }

  // ---- one iteration

  lemma ClearedCall(c: Car, now: int, kind: ButtonType, floor: int)
    requires kind != TargetFloor && c.b.min < c.b.max
    ensures floor in CallsOf(c, kind) && floor !in CallsOf(c.ClearDirectionLamp(now), kind)
       <==> && floor in CallsOf(c, kind) && floor == c.es.lastFloor
            && (if floor == c.b.max then kind == CallDown
                else if floor == c.b.min then kind == CallUp
                else c.es.direction != None && kind == if c.es.direction == Down then CallDown else CallUp)
  {
    hide CallsOf, Car.ClearCall;
    ClearedOne(c, CallDown, now, kind, floor);
    ClearedOne(c, CallUp, now, kind, floor);
  }

  lemma ClearedOne(c: Car, clears: ButtonType, now: int, kind: ButtonType, floor: int)
    requires kind != TargetFloor && clears != TargetFloor
    ensures floor in CallsOf(c.ClearCall(clears, c.es.lastFloor, now), kind)
       <==> floor in CallsOf(c, kind) && !(kind == clears && floor == c.es.lastFloor)
  {
    hide Car.SetLamp, Car.Emit;
    var f := c.es.lastFloor;
    var d := if clears == CallUp then c.(es := c.es.(up := c.es.up - {f}))
             else c.(es := c.es.(down := c.es.down - {f}));
    var change := if clears == CallUp then ServedUp else ServedDown;
    EmitIs(d, change, f, now);
    SetLampIs(d.Emit(change, f, now), Button(clears, f), false);
    SetLampIs(c, Button(clears, f), false);
  }

  lemma DepartedCall(a: Car, sensor: int, now: int, kind: ButtonType, floor: int)
    requires kind != TargetFloor && Safe(a) && a.mode == Normal && a.es.direction == None
    requires sensor == NO_FLOOR || a.es.lastFloor == sensor
    ensures floor in CallsOf(a, kind) && floor !in CallsOf(a.Depart(sensor, now), kind)
       <==> floor in CallsOf(a, kind) && floor == a.es.lastFloor && kind == Honoured(a)
  {
    var direction := if a.PriorityInDirection(a.previous) then a.previous else None;
    var s := a.Start(direction, sensor).Emit(OtherChange, sensor, now);
    StartDirection(a, direction, sensor);
    assert s.es.up == a.es.up && s.es.down == a.es.down;
    assert a.es.All() == {} ==> floor !in CallsOf(a, kind);
    hide Safe, Car.Start, Car.ClearDirectionLamp, ElevatorState.All, OptimalDirection;
    ClearedCall(s, now, kind, floor);
  }

  /** The mode-dependent part drops a call with the door dark exactly when it departs from its floor. */
  lemma ActDropsDark(a: Car, sensor: int, now: int, kind: ButtonType, floor: int)
    requires kind != TargetFloor && Safe(a) && DoorShown(a) && !a.doorLamp
    requires sensor == NO_FLOOR || a.es.lastFloor == sensor
    ensures a.Act(sensor, now).Continue?
    ensures floor in CallsOf(a, kind) && floor !in CallsOf(a.Act(sensor, now).car, kind)
       <==> && a.mode == Normal && a.es.direction == None && !(sensor != NO_FLOOR && a.ShouldStop(sensor))
            && a.es.lastFloor == floor && kind == Honoured(a) && floor in CallsOf(a, kind)
  {
    if a.mode == Normal && a.es.direction == None {
      DepartedCall(a, sensor, now, kind, floor);
    }
    hide Safe, Car.Depart, Car.ShouldStop, Honoured;
  }

  lemma DroppedHere(a: Car, sensor: int, now: int, kind: ButtonType, floor: int)
    requires kind != TargetFloor && Safe(a) && (sensor == NO_FLOOR || a.es.lastFloor == sensor)
    requires a.Act(sensor, now).Continue?
    requires floor in CallsOf(a, kind) && floor !in CallsOf(a.Act(sensor, now).car, kind)
    ensures a.es.lastFloor == floor
  {
    hide Safe, Car.Act, CallsOf, Drops;
    ActDrops(a, sensor, now);
    ActSafe(a, sensor, now);
    DropsHere(a, a.Act(sensor, now).car, sensor, kind, floor);
  }

  lemma DropsHere(a: Car, d: Car, sensor: int, kind: ButtonType, floor: int)
    requires kind != TargetFloor && Drops(a, d, sensor) && floor in CallsOf(a, kind) && floor !in CallsOf(d, kind)
    ensures d.es.lastFloor == floor
  {
    assert floor in (a.es.up - d.es.up) + (a.es.down - d.es.down);
    hide DroppedInside;
  }

  lemma PollDoor(c: Car, i: Inputs)
    requires Safe(c) && DoorShown(c)
    ensures DoorShown(c.Poll(i))
  {
    PollPanel(c, i.pressed, i.now);
  }

  /** What the acting car inherits from the state before the iteration. */
  lemma ActingSafe(c: Car, i: Inputs)
    requires Safe(c) && DoorShown(c) && ValidInputs(c.b, i)
    ensures var a := Acting(c, i);
            && Safe(a) && DoorShown(a) && a.b == c.b && c.es.up <= a.es.up && c.es.down <= a.es.down
            && (c.Poll(i).Accepts(i.command) ==> i.sensor == NO_FLOOR || a.es.lastFloor == i.sensor)
  {
    var p := c.Poll(i);
    PollSafe(c, i);
    PollKeeps(c, i);
    PollDoor(c, i);
    if p.Accepts(i.command) {
      BeforeAct(p, i);
      LaterDoor(p, i);
    }
    hide Safe, Car.Poll, Car.Accepts, Car.Obey, Car.Arrive;
  }

  lemma LaterDoor(p: Car, i: Inputs)
    requires DoorShown(p)
    ensures DoorShown(p.Obey(i.command, i.now).Arrive(i.sensor, i.now))
  {
    var o := p.Obey(i.command, i.now);
    ObeyDoor(p, i.command, i.now);
    hide Car.Obey;
    ArriveDoor(o, i.sensor, i.now);
    hide Car.Arrive;
  }

  lemma ObeyDoor(p: Car, command: Maybe<Command>, now: int)
    ensures p.Obey(command, now).mode == p.mode && p.Obey(command, now).doorLamp == p.doorLamp
  {
    hide Car.Obey;
    ObeyFrame(p, command, now);
  }

  lemma ArriveDoor(p: Car, sensor: int, now: int)
    ensures p.Arrive(sensor, now).mode == p.mode && p.Arrive(sensor, now).doorLamp == p.doorLamp
  {
  }

  /** A call that is dropped was pending as the acting part began, and is gone at the end of a completed
      iteration; an iteration that fails drops nothing. */
  predicate Dropped(c: Car, i: Inputs, d: Car, kind: ButtonType, floor: int)
    requires kind != TargetFloor
  {
    floor in CallsOf(Acting(c, i), kind) && floor !in CallsOf(d, kind)
  }

  /** Finishing an iteration leaves the calls as the acting part left them. */
  lemma ServeCalls(p: Car, i: Inputs)
    ensures var r := p.Obey(i.command, i.now).Arrive(i.sensor, i.now).Act(i.sensor, i.now);
            && (p.Serve(i).Continue? <==> r.Continue?)
            && (r.Continue? ==> p.Serve(i).car.es.up == r.car.es.up && p.Serve(i).car.es.down == r.car.es.down)
  {
    hide Car.Obey, Car.Arrive, Car.Act;
  }

  lemma IterateCalls(c: Car, i: Inputs)
    requires Safe(c) && ValidInputs(c.b, i) && c.Iterate(i).Continue?
    ensures var r := Acting(c, i).Act(i.sensor, i.now);
            && !i.obstruction && c.Poll(i).Accepts(i.command) && r.Continue?
            && c.Iterate(i).car.es.up == r.car.es.up && c.Iterate(i).car.es.down == r.car.es.down
  {
    assert c.Consistent();
    hide Safe, Car.Poll, Car.Obey, Car.Arrive, Car.Act, Car.Consistent, Car.Accepts, Car.Serve;
    ServeCalls(c.Poll(i), i);
  }

  /** In every iteration: a hall call is dropped without the door lamp being lit at its floor if and only if an
      idle car departs from its floor in its direction. */
  lemma DroppedUnopenedIff(c: Car, i: Inputs, kind: ButtonType, floor: int)
    requires kind != TargetFloor && Safe(c) && DoorShown(c) && ValidInputs(c.b, i) && c.Iterate(i).Continue?
    ensures Dropped(c, i, c.Iterate(i).car, kind, floor) && !OpenAt(Acting(c, i), floor)
       <==> DepartsFrom(c, i, kind, floor)
  {
    var a := Acting(c, i);
    ActingSafe(c, i);
    IterateCalls(c, i);
    hide Safe, DoorShown, Acting, Car.Iterate, Car.Poll, Car.Accepts, Honoured, Car.ShouldStop, Car.Act;
    if !a.doorLamp {
      ActDropsDark(a, i.sensor, i.now, kind, floor);
    } else if Dropped(c, i, c.Iterate(i).car, kind, floor) {
      DroppedHere(a, i.sensor, i.now, kind, floor);
    }
  }

  // ---- lamps

  /** The lamp of this call button is dark. */
  predicate Dark(c: Car, kind: ButtonType, floor: int) {
    (kind == CallUp ==> floor !in c.upLamps) && (kind == CallDown ==> floor !in c.downLamps)
  }

  /** If the call is dropped between c and d, its lamp is dark in d. */
  predicate Darkened(c: Car, d: Car, kind: ButtonType, floor: int)
    requires kind != TargetFloor
  {
    floor in CallsOf(c, kind) && floor !in CallsOf(d, kind) ==> Dark(d, kind, floor)
  }

  lemma SameCallsDarkened(c: Car, d: Car, kind: ButtonType, floor: int)
    requires kind != TargetFloor && d.es.up == c.es.up && d.es.down == c.es.down
    ensures Darkened(c, d, kind, floor)
    ensures forall e {:trigger Darkened(d, e, kind, floor)} ::
              Darkened(d, e, kind, floor) ==> Darkened(c, e, kind, floor)
  {
  }

  lemma ClearCallDarkens(c: Car, clears: ButtonType, at: int, now: int, kind: ButtonType, floor: int)
    requires kind != TargetFloor && clears != TargetFloor
    ensures Darkened(c, c.ClearCall(clears, at, now), kind, floor)
  {
  }

  lemma ClearingDarkens(c: Car, now: int, kind: ButtonType, floor: int)
    requires kind != TargetFloor
    ensures Darkened(c, c.ClearDirectionLamp(now), kind, floor)
  {
    hide Darkened, Car.ClearCall;
    SameCallsDarkened(c, c, kind, floor);
    ClearCallDarkens(c, CallDown, c.b.max, now, kind, floor);
    ClearCallDarkens(c, CallUp, c.b.min, now, kind, floor);
    ClearCallDarkens(c, CallDown, c.es.lastFloor, now, kind, floor);
    ClearCallDarkens(c, CallUp, c.es.lastFloor, now, kind, floor);
  }

  lemma SmallStepsKeepCalls(a: Car, direction: Direction, sensor: int, now: int)
    ensures a.OpenDoor(sensor, now).es.up == a.es.up && a.OpenDoor(sensor, now).es.down == a.es.down
    ensures a.CloseDoor(sensor, now).es.up == a.es.up && a.CloseDoor(sensor, now).es.down == a.es.down
    ensures var s := a.Start(direction, sensor).Emit(OtherChange, sensor, now);
            s.es.up == a.es.up && s.es.down == a.es.down
  {
    hide OptimalDirection;
  }

  lemma ForgettingDarkens(c: Car, at: int, now: int, kind: ButtonType, floor: int)
    requires kind != TargetFloor
    ensures Darkened(c, c.ForgetCalls(at, now), kind, floor)
  {
  }

  lemma ActDarkens(a: Car, sensor: int, now: int, kind: ButtonType, floor: int)
    requires kind != TargetFloor
    ensures Darkened(a, a.Act(sensor, now).car, kind, floor)
  {
    hide Darkened, Car.Start, Car.OpenDoor, Car.CloseDoor, Car.ForgetCalls, Car.ClearDirectionLamp, Car.Emit,
         Car.ShouldStop, Car.TimedOut, Car.PriorityInDirection, ElevatorState.All;
    var direction := if a.PriorityInDirection(a.previous) then a.previous else None;
    var s, d := a.Start(direction, sensor).Emit(OtherChange, sensor, now), a.CloseDoor(sensor, now);
    SmallStepsKeepCalls(a, direction, sensor, now);
    SameCallsDarkened(a, a, kind, floor);
    SameCallsDarkened(a, a.OpenDoor(sensor, now), kind, floor);
    SameCallsDarkened(a, s, kind, floor);
    SameCallsDarkened(a, d, kind, floor);
    ClearingDarkens(a, now, kind, floor);
    ClearingDarkens(s, now, kind, floor);
    ClearingDarkens(d, now, kind, floor);
    ForgettingDarkens(d, sensor, now, kind, floor);
  }

  lemma FinishDarkens(c: Car, d: Car, sensor: int, now: int, kind: ButtonType, floor: int)
    requires kind != TargetFloor && Darkened(c, d, kind, floor)
    ensures Darkened(c, d.Finish(sensor, now), kind, floor)
  {
  }

  lemma IterateIs(c: Car, i: Inputs)
    requires Safe(c) && ValidInputs(c.b, i) && c.Iterate(i).Continue?
    ensures var r := Acting(c, i).Act(i.sensor, i.now);
            && c.Poll(i).Accepts(i.command) && r.Continue? && c.Iterate(i) == Continue(r.car.Finish(i.sensor, i.now))
  {
    SafeIsConsistent(c);
    hide Safe, Car.Poll, Car.Obey, Car.Arrive, Car.Act, Car.Finish, Car.Consistent, Car.Accepts;
  }

  /** The lamp of a dropped call goes out with it. */
  lemma DroppedIsDark(c: Car, i: Inputs, kind: ButtonType, floor: int)
    requires kind != TargetFloor && Safe(c) && ValidInputs(c.b, i) && c.Iterate(i).Continue?
    requires Dropped(c, i, c.Iterate(i).car, kind, floor)
    ensures Dark(c.Iterate(i).car, kind, floor)
  {
    hide Safe, Acting, Car.Iterate, Car.Poll, Car.Accepts, Car.Act, Car.Finish, CallsOf, Dark;
    IterateIs(c, i);
    var a := Acting(c, i);
    ActDarkens(a, i.sensor, i.now, kind, floor);
    FinishDarkens(a, a.Act(i.sensor, i.now).car, i.sensor, i.now, kind, floor);
  }

  /** A dropped call is reported as served, also when it came in the same iteration. */
  lemma DroppedIsReported(c: Car, i: Inputs, kind: ButtonType, floor: int)
    requires kind != TargetFloor && Safe(c) && ValidInputs(c.b, i) && c.Iterate(i).Continue?
    requires Dropped(c, i, c.Iterate(i).car, kind, floor)
    ensures var served := if kind == CallUp then ServedUp else ServedDown;
            Reports(c.sent, served, floor) < Reports(c.Iterate(i).car.sent, served, floor)
  {
    var served := if kind == CallUp then ServedUp else ServedDown;
    hide Safe, Car.Iterate, Car.Poll, Car.Accepts, Car.Obey, Car.Arrive, Car.Act, Car.Finish, Reports;
    IterateIs(c, i);
    var p, a := c.Poll(i), Acting(c, i);
    PollQuiet(c, i, served, floor);
    ObeyQuiet(p, i.command, i.now, served, floor);
    ArriveQuiet(p.Obey(i.command, i.now), i.sensor, i.now, served, floor);
    ActHonest(a, i.sensor, i.now, served, floor);
    FinishQuiet(a.Act(i.sensor, i.now).car, i.sensor, i.now, served, floor);
  }

  // ---- runs

  lemma ActDoor(a: Car, sensor: int, now: int)
    requires DoorShown(a)
    ensures DoorShown(a.Act(sensor, now).car)
  {
    var s := a.Start(if a.PriorityInDirection(a.previous) then a.previous else None, sensor)
              .Emit(OtherChange, sensor, now);
    assert s.mode == a.mode;
    assert a.OpenDoor(sensor, now).doorLamp;
    assert a.CloseDoor(sensor, now).mode == a.CloseDoor(sensor, now).ForgetCalls(sensor, now).mode == Normal;
    hide Car.Start, Car.ClearDirectionLamp, Car.ShouldStop, Car.OpenDoor, Car.CloseDoor, Car.ForgetCalls, Car.Emit;
    ClearDirectionLampKeeps(a.CloseDoor(sensor, now), now);
    ClearDirectionLampKeeps(a, now);
    ClearDirectionLampKeeps(s, now);
  }

  lemma IterateDoor(c: Car, i: Inputs)
    requires Safe(c) && DoorShown(c) && ValidInputs(c.b, i)
    ensures c.Iterate(i).Continue? ==> DoorShown(c.Iterate(i).car)
  {
    ActingSafe(c, i);
    assert c.Consistent();
    hide Safe, Car.Poll, Car.Obey, Car.Arrive, Car.Act, Car.Consistent, Car.Accepts;
    ActDoor(Acting(c, i), i.sensor, i.now);
  }

  lemma StepDoor(w: World, i: Inputs, w': World)
    requires Contained(w) && DoorShown(w.car) && Step(w, i, w')
    ensures DoorShown(w'.car) && ValidInputs(w.car.b, i)
  {
    assert InShaft(w.car.b, w'.pos);
    IterateDoor(w.car, i);
  }

  lemma {:induction false} DoorShownAlways(ws: seq<World>, inputs: seq<Inputs>, k: nat)
    requires Run(ws, inputs) && Contained(ws[0]) && DoorShown(ws[0].car) && k < |ws|
    ensures Contained(ws[k]) && DoorShown(ws[k].car)
  {
    ContainedAlways(ws, inputs, k);
    if k > 0 {
      DoorShownAlways(ws, inputs, k - 1);
      hide Contained, DoorShown;
      var w, i, w' := ws[k - 1], inputs[k - 1], ws[k - 1 + 1];
      StepDoor(w, i, w');
    }
  }

  /** A failed assertion drops no call. */
  lemma FailedDropsNothing(c: Car, i: Inputs, kind: ButtonType, floor: int)
    requires kind != TargetFloor && Safe(c) && DoorShown(c) && ValidInputs(c.b, i) && c.Iterate(i).Failed?
    ensures !Dropped(c, i, c.Iterate(i).car.Restart(), kind, floor)
    ensures !DepartsFrom(c, i, kind, floor)
  {
    SafeIsConsistent(c);
    hide Safe, CallsOf, Car.Poll, Car.Obey, Car.Arrive, Car.Act, Car.Restart, Car.Accepts, Car.Consistent,
         Car.ShouldStop, Honoured;
    FailedAct(Acting(c, i), i.sensor, i.now, kind);
    RestartKeepsCalls(c.Iterate(i).car, kind);
  }

  lemma SafeIsConsistent(c: Car)
    requires Safe(c)
    ensures c.Consistent()
  {
  }

  lemma FailedAct(a: Car, sensor: int, now: int, kind: ButtonType)
    requires kind != TargetFloor
    ensures a.Act(sensor, now).Failed? ==>
              a.mode == WaitingForInButton && CallsOf(a.Act(sensor, now).car, kind) == CallsOf(a, kind)
  {
    hide Car.ShouldStop, Car.OpenDoor, Car.Depart, Car.ForgetCalls, Car.ClearDirectionLamp;
  }

  lemma RestartKeepsCalls(c: Car, kind: ButtonType)
    requires kind != TargetFloor
    ensures CallsOf(c.Restart(), kind) == CallsOf(c, kind)
  {
  }

  lemma StepDroppedIff(w: World, i: Inputs, w': World, kind: ButtonType, floor: int)
    requires kind != TargetFloor && Contained(w) && DoorShown(w.car) && Step(w, i, w')
    ensures Dropped(w.car, i, w'.car, kind, floor) && !OpenAt(Acting(w.car, i), floor)
       <==> DepartsFrom(w.car, i, kind, floor)
  {
    StepDoor(w, i, w');
    hide Safe, DoorShown, Dropped, DepartsFrom, OpenAt, Acting, Car.Iterate, Car.Restart;
    if w.car.Iterate(i).Continue? {
      DroppedUnopenedIff(w.car, i, kind, floor);
    } else {
      FailedDropsNothing(w.car, i, kind, floor);
    }
  }

  /** From state j on the call has been pending, and since then, up to the drop in iteration k, the door has
      not been open at its floor. For j = k + 1 the call came with the command of iteration k. */
  predicate NeverOpened(ws: seq<World>, inputs: seq<Inputs>, j: nat, k: nat, kind: ButtonType, floor: int)
    requires kind != TargetFloor && |ws| == |inputs| + 1 && k < |inputs|
  {
    && (forall m :: j <= m <= k ==> !OpenAt(ws[m].car, floor))
    && !OpenAt(Acting(ws[k].car, inputs[k]), floor)
  }

  /** In every run: a hall call pending from state j on is dropped in iteration k, without the door having
      been open at its floor in the meantime, if and only if in iteration k an idle car departs from its floor
      in its direction, and the door has not been open there since state j. */
  lemma UnservedExactly(c: Car, ws: seq<World>, inputs: seq<Inputs>, j: nat, k: nat, kind: ButtonType, floor: int)
    requires kind != TargetFloor && Run(ws, inputs) && k < |inputs| && j <= k + 1
    requires Parked(c) && ws[0].car == c.Initialize() && InShaft(c.b, ws[0].pos)
    requires forall m :: j <= m <= k ==> floor in CallsOf(ws[m].car, kind)
    ensures Dropped(ws[k].car, inputs[k], ws[k + 1].car, kind, floor) && NeverOpened(ws, inputs, j, k, kind, floor)
       <==> && DepartsFrom(ws[k].car, inputs[k], kind, floor)
            && forall m :: j <= m <= k ==> !OpenAt(ws[m].car, floor)
  {
    InitializeSafe(c);
    DoorShownAlways(ws, inputs, k);
    hide Contained, DoorShown, Dropped, DepartsFrom, OpenAt, Acting;
    StepDroppedIff(ws[k], inputs[k], ws[k + 1], kind, floor);
  }

  /** In every run, a hall call that is dropped in any other way has had the door open at its floor while it
      was pending. */
  lemma OtherwiseOpened(c: Car, ws: seq<World>, inputs: seq<Inputs>, j: nat, k: nat, kind: ButtonType, floor: int)
    requires kind != TargetFloor && Run(ws, inputs) && k < |inputs| && j <= k + 1
    requires Parked(c) && ws[0].car == c.Initialize() && InShaft(c.b, ws[0].pos)
    requires forall m :: j <= m <= k ==> floor in CallsOf(ws[m].car, kind)
    requires Dropped(ws[k].car, inputs[k], ws[k + 1].car, kind, floor)
    requires !DepartsFrom(ws[k].car, inputs[k], kind, floor)
    ensures !NeverOpened(ws, inputs, j, k, kind, floor)
  {
    hide Dropped, DepartsFrom, OpenAt, Acting, NeverOpened;
    UnservedExactly(c, ws, inputs, j, k, kind, floor);
  }

  // ---- the commonest case

  /** The car stands at a floor between the end floors, with its door closed and nothing to do. */
  ghost predicate Idle(c: Car) {
    && Safe(c) && c.mode == Normal && c.es.direction == None && !c.doorLamp
    && c.es.inside == {} && c.es.up == {} && c.es.down == {}
    && c.b.min < c.es.lastFloor < c.b.max
  }

  /** Nobody presses anything, and a call up from the floor of the car arrives. */
  predicate CallsHere(c: Car, i: Inputs) {
    && i.pressed == {} && !i.stop && !i.obstruction && i.sensor == c.es.lastFloor
    && i.command == Just(Command(CallToFloorAndGoUp, c.es.id, c.es.lastFloor))
  }

  lemma {:induction false} NothingPressed(c: Car, btns: seq<Button>, now: int)
    ensures c.PressAll(btns, {}, now) == c
  {
    if btns != [] {
      NothingPressed(c, btns[..|btns| - 1], now);
    }
  }

  lemma CallHereIsPolled(c: Car, i: Inputs)
    requires CallsHere(c, i) && c.b.Has(c.es.lastFloor)
    ensures c.Poll(i) == c.(heldLast := c.held, held := {}, stopNow := false) && c.Poll(i).Accepts(i.command)
  {
    hide FloorButtons, Car.PressAll;
    NothingPressed(c.(heldLast := c.held, held := {}), FloorButtons(c.b, c.b.max), i.now);
  }

  lemma CallHereIsObeyed(p: Car, id: int, floor: int, now: int)
    requires p.es.up == {} && p.es.down == {}
    ensures var o := p.Obey(Just(Command(CallToFloorAndGoUp, id, floor)), now); o.es.up == {floor} && o.es.down == {}
  {
    hide Car.SetLamp, Car.Emit;
    var up := p.(es := p.es.(up := p.es.up + {floor}));
    SetLampIs(up, Button(CallUp, floor), true);
    EmitIs(up.SetLamp(Button(CallUp, floor), true), GoingToServeUp, floor, now);
  }

  /** The car accepts the call and is still idle as its door would have to open. */
  lemma CallHereIsAccepted(c: Car, i: Inputs)
    requires Idle(c) && CallsHere(c, i)
    ensures var a := Acting(c, i);
            && SameMotion(c, a) && !a.doorLamp && a.es.inside == {} && a.es.up == {c.es.lastFloor} && a.es.down == {}
  {
    var p := c.Poll(i);
    SafeMotion(c);
    CallHereIsPolled(c, i);
    hide Safe, Car.Poll, Car.Obey, Car.Arrive, Car.Accepts;
    CallHereIsObeyed(p, c.es.id, c.es.lastFloor, i.now);
    ObeyKeeps(p, i.command, i.now);
    ObeyDoor(p, i.command, i.now);
    var o := p.Obey(i.command, i.now);
    ArriveIs(o, i.sensor, i.now);
    ArriveDoor(o, i.sensor, i.now);
  }

  /** It does not stop, and the departure takes the call for honoured. */
  lemma CallHereDeparts(a: Car, floor: int)
    requires a.b.min < floor < a.b.max && a.es.lastFloor == floor && a.es.direction == None
    requires a.es.inside == {} && a.es.up == {floor} && a.es.down == {}
    ensures !a.ShouldStop(floor) && a.es.All() != {} && !a.PriorityInDirection(a.previous)
    ensures OptimalDirection(a.es.inside, a.es.up + a.es.down, floor) == Up && Honoured(a) == CallUp
  {
    assert a.es.up + a.es.down == {floor} && floor in a.es.All();
    assert Above({floor}, floor) == {} && Below({floor}, floor) == {};
  }

  lemma CallHereDrivesOff(a: Car, sensor: int, now: int)
    requires Safe(a) && a.b.min < sensor < a.b.max && sensor != NO_FLOOR && a.es.lastFloor == sensor
    requires a.mode == Normal && a.es.direction == None
    requires a.es.inside == {} && a.es.up == {sensor} && a.es.down == {}
    ensures a.Act(sensor, now).Continue? && a.Act(sensor, now).car.es.direction == Up
  {
    CallHereDeparts(a, sensor);
    StartDirection(a, None, sensor);
    hide Safe, Car.Start, Car.ClearDirectionLamp, Car.ShouldStop, Car.PriorityInDirection, OptimalDirection,
         ElevatorState.All;
    ClearDirectionLampKeeps(a.Start(None, sensor).Emit(OtherChange, sensor, now), now);
  }

  /** Any idle car that is called up from its own floor accepts the call, reports it as served, drops it and
      drives off upwards, all in one iteration and with its door closed. */
  lemma IdleCarDropsTheCall(c: Car, i: Inputs)
    requires Idle(c) && CallsHere(c, i)
    ensures c.Iterate(i).Continue?
    ensures var d := c.Iterate(i).car;
            && DepartsFrom(c, i, CallUp, c.es.lastFloor) && Dropped(c, i, d, CallUp, c.es.lastFloor)
            && !OpenAt(Acting(c, i), c.es.lastFloor) && !d.doorLamp && d.motor == Up
            && Reports(c.sent, ServedUp, c.es.lastFloor) < Reports(d.sent, ServedUp, c.es.lastFloor)
  {
    hide Safe, Acting, Car.Iterate, Car.Act, Car.Finish, Reports, Dropped, DepartsFrom, OpenAt;
    var f := c.es.lastFloor;
    SafeMotion(c);
    CallHereActs(c, i);
    DroppedUnopenedIff(c, i, CallUp, f);
    IterateSafe(c, i);
    SafeCar(c.Iterate(i).car);
    DroppedIsReported(c, i, CallUp, f);
  }

  /** How the iteration goes. */
  lemma CallHereActs(c: Car, i: Inputs)
    requires Idle(c) && CallsHere(c, i)
    ensures DepartsFrom(c, i, CallUp, c.es.lastFloor)
    ensures var r := Acting(c, i).Act(i.sensor, i.now);
            && r.Continue? && c.Iterate(i) == Continue(r.car.Finish(i.sensor, i.now))
            && c.Iterate(i).car.es.direction == Up
  {
    var f, a := c.es.lastFloor, Acting(c, i);
    SafeMotion(c);
    SafeIsConsistent(c);
    CallHereIsPolled(c, i);
    CallHereIsAccepted(c, i);
    hide Car.Poll, Car.Accepts;
    ActingSafe(c, i);
    CallHereDeparts(a, f);
    CallHereDrivesOff(a, f, i.now);
    hide Safe, Car.Obey, Car.Arrive, Car.Act, Car.Consistent, Car.ShouldStop, Car.PriorityInDirection, Honoured,
         OptimalDirection;
  }

  lemma SafeCar(c: Car)
    requires Safe(c)
    ensures c.motor == c.es.direction && (c.es.direction != None ==> !c.doorLamp)
  {
  }

  // ---- an input that shows it

  const SHAFT := Bounds(1, 4)

  const IDLE := Car(SHAFT, ElevatorState(0, 0, 2, None, false, false, {}, {}, {}), None, 0, {}, {}, {}, false, false,
                    None, Normal, false, {}, {}, 2, 0, [])

  const CALL_HERE := Inputs({}, false, false, Just(Command(CallToFloorAndGoUp, 0, 2)), 2, 0)

  lemma IdleCar()
    ensures Idle(IDLE) && CallsHere(IDLE, CALL_HERE)
  {
    assert IDLE.insideLamps * Floors(SHAFT) == {};
  }

  /** A car stands idle at floor 2 of 4 with its door closed, and a call up from floor 2 arrives. */
  lemma CallHereIsDropped()
    ensures var d := IDLE.Iterate(CALL_HERE).car;
            && Idle(IDLE) && DepartsFrom(IDLE, CALL_HERE, CallUp, 2) && Dropped(IDLE, CALL_HERE, d, CallUp, 2)
            && !d.doorLamp && d.motor == Up && Reports([], ServedUp, 2) < Reports(d.sent, ServedUp, 2)
  {
    hide Idle, CallsHere, Car.Iterate, DepartsFrom, Dropped, OpenAt, Acting, Reports;
    IdleCar();
    IdleCarDropsTheCall(IDLE, CALL_HERE);
  }
}
