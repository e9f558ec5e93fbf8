/**
 What passengers get: requests are only dropped where they are honoured, and a request from inside
 the car is served within a bounded number of floor changes.
*/
module ElevatorService {
  import opened ElevatorTypes
  import opened ElevatorControl
  import opened ElevatorSafety
  import opened ElevatorRuns

  // ---- phases of an iteration, seen from the requests

  ghost predicate SameMotion(c: Car, d: Car) {
    && d.b == c.b && d.es.id == c.es.id && d.mode == c.mode && d.previous == c.previous
    && d.es.direction == c.es.direction && d.es.lastFloor == c.es.lastFloor
    && d.waitingSince == c.waitingSince
  }

  lemma PollKeeps(c: Car, i: Inputs)
    requires Safe(c) && ValidInputs(c.b, i)
    ensures var d := c.Poll(i);
            && c.es.inside <= d.es.inside && d.es.up == c.es.up && d.es.down == c.es.down
            && d.b == c.b && d.es.id == c.es.id
            && (!i.stop ==> SameMotion(c, d))
  {
    PollPanel(c, i.pressed, i.now);
  }

  /** A request for the car's own passengers leaves the set only as the door opens at its floor. */
  ghost predicate DroppedInside(c: Car, d: Car, sensor: int) {
    forall f <- c.es.inside - d.es.inside ::
      && d.es.lastFloor == f == sensor && d.mode == WaitingForInButton
      && d.es.direction == None && d.motor == None && d.doorLamp
  }

  /** A hall call leaves the set only while the car's last floor is the floor of the call. */
  ghost predicate DroppedOutside(c: Car, d: Car) {
    forall f <- (c.es.up - d.es.up) + (c.es.down - d.es.down) :: d.es.lastFloor == f
  }

  ghost predicate Drops(c: Car, d: Car, sensor: int) {
    DroppedInside(c, d, sensor) && DroppedOutside(c, d)
  }

  lemma OpenDoorDrops(c: Car, sensor: int, now: int)
    requires Safe(c) && c.es.lastFloor == sensor
    ensures Drops(c, c.OpenDoor(sensor, now), sensor)
  {
  }

  lemma ClearDirectionLampDrops(c: Car, now: int)
    requires Safe(c)
    ensures var d := c.ClearDirectionLamp(now);
            d.es.inside == c.es.inside && d.es.lastFloor == c.es.lastFloor && DroppedOutside(c, d)
  {
    hide Safe, DroppedOutside, Car.ClearCall;
    ClearCallDrops(c, CallDown, now);
    ClearCallDrops(c, CallUp, now);
    NothingDropped(c, c.es.lastFloor);
  }

  lemma ClearCallDrops(c: Car, kind: ButtonType, now: int)
    requires kind != TargetFloor
    ensures var d := c.ClearCall(kind, c.es.lastFloor, now);
            d.es.inside == c.es.inside && d.es.lastFloor == c.es.lastFloor && DroppedOutside(c, d)
  {
  }

  lemma DepartDrops(c: Car, sensor: int, now: int)
    requires Safe(c) && (sensor == NO_FLOOR || c.es.lastFloor == sensor) && c.mode == Normal
    ensures Drops(c, c.Depart(sensor, now), sensor)
  {
    if c.es.All() == {} {
      ClearDirectionLampDrops(c, now);
    } else {
      var d := c.Start(if c.PriorityInDirection(c.previous) then c.previous else None, sensor)
                .Emit(OtherChange, sensor, now);
      assert Safe(d) && d.es.lastFloor == c.es.lastFloor && d.es.inside == c.es.inside
          && d.es.up == c.es.up && d.es.down == c.es.down;
      ClearDirectionLampDrops(d, now);
    }
  }

  lemma CloseDoorDrops(c: Car, sensor: int, now: int)
    requires Safe(c) && (sensor == NO_FLOOR || c.es.lastFloor == sensor) && c.mode == WaitingForInButton
    ensures sensor != NO_FLOOR ==> Drops(c, c.CloseDoor(sensor, now).ForgetCalls(sensor, now), sensor)
    ensures Drops(c, c.CloseDoor(sensor, now).ClearDirectionLamp(now), sensor)
  {
    ClearDirectionLampDrops(c.CloseDoor(sensor, now), now);
  }

  lemma ActDrops(c: Car, sensor: int, now: int)
    requires Safe(c) && (sensor == NO_FLOOR || c.es.lastFloor == sensor)
    ensures c.Act(sensor, now).Continue? ==> Drops(c, c.Act(sensor, now).car, sensor)
  {
    hide Drops, Car.OpenDoor, Car.Depart, Car.CloseDoor, Car.ClearDirectionLamp, Car.ForgetCalls;
    match c.mode
    case Stopped =>
      NothingDropped(c, sensor);
    case Normal =>
      if sensor != NO_FLOOR {
        OpenDoorDrops(c, sensor, now);
      }
      DepartDrops(c, sensor, now);
      NothingDropped(c, sensor);
    case WaitingForInButton =>
      CloseDoorDrops(c, sensor, now);
      NothingDropped(c, sensor);
  }

  lemma NothingDropped(c: Car, sensor: int)
    ensures Drops(c, c, sensor)
  {
  }

  lemma DropsFrame(c: Car, d: Car, e: Car, f: Car, sensor: int)
    requires Drops(d, e, sensor)
    requires c.es.inside <= d.es.inside && c.es.up <= d.es.up && c.es.down <= d.es.down
    requires f.es == e.es && f.mode == e.mode && f.motor == e.motor && f.doorLamp == e.doorLamp
    ensures Drops(c, f, sensor)
  {
    assert forall x <- c.es.inside - f.es.inside :: x in d.es.inside - e.es.inside;
    assert forall x <- (c.es.up - f.es.up) + (c.es.down - f.es.down) ::
        x in (d.es.up - e.es.up) + (d.es.down - e.es.down);
  }

  /** What a command may change. */
  lemma ObeyFrame(c: Car, command: Maybe<Command>, now: int)
    ensures var d := c.Obey(command, now);
            && d == c.(es := c.es.(up := d.es.up, down := d.es.down), upLamps := d.upLamps, downLamps := d.downLamps,
                       insideLamps := d.insideLamps, sent := d.sent, lastUpdate := d.lastUpdate)
            && c.es.up <= d.es.up && c.es.down <= d.es.down
  {
    hide Car.SetLamp, Car.Emit;
    if command.Just? {
      var floor := command.value.floor;
      var up := c.(es := c.es.(up := c.es.up + {floor}));
      var down := c.(es := c.es.(down := c.es.down + {floor}));
      SetLampIs(up, Button(CallUp, floor), true);
      SetLampIs(down, Button(CallDown, floor), true);
      EmitIs(up.SetLamp(Button(CallUp, floor), true), GoingToServeUp, floor, now);
      EmitIs(down.SetLamp(Button(CallDown, floor), true), GoingToServeDown, floor, now);
      forall kind, val {
        SetLampIs(c, Button(kind, floor), val);
      }
    }
  }

  lemma ObeyKeeps(c: Car, command: Maybe<Command>, now: int)
    ensures var d := c.Obey(command, now);
            && SameMotion(c, d) && d.es.inside == c.es.inside
            && c.es.up <= d.es.up && c.es.down <= d.es.down
  {
    hide Car.Obey;
    ObeyFrame(c, command, now);
  }

  /** An arriving car halts when it reaches the end floor that it moves towards. */
  ghost predicate Halts(c: Car, sensor: int) {
    (sensor == c.b.max && c.es.direction == Up) || (sensor == c.b.min && c.es.direction == Down)
  }

  lemma ArriveIs(c: Car, sensor: int, now: int)
    requires c.b.Valid()
    ensures var d := c.Arrive(sensor, now);
            && d.b == c.b && d.es.id == c.es.id && d.mode == c.mode && d.waitingSince == c.waitingSince
            && d.es.inside == c.es.inside && d.es.up == c.es.up && d.es.down == c.es.down
            && d.es.lastFloor == (if sensor == NO_FLOOR then c.es.lastFloor else sensor)
            && d.es.direction == (if Halts(c, sensor) then None else c.es.direction)
            && d.previous == (if Halts(c, sensor) then c.es.direction else c.previous)
  {
    hide Car.Halt, Car.Observe, Car.Emit;
    var o := c.Observe(sensor);
    ObserveIs(c, sensor);
    HaltIs(o);
    HaltIs(o.Halt());
    EmitIs(o, OtherChange, sensor, now);
    EmitIs(o.Halt(), OtherChange, sensor, now);
  }

  lemma ArriveKeeps(c: Car, sensor: int, now: int)
    requires Safe(c) && (sensor == NO_FLOOR || c.b.Has(sensor))
    ensures var d := c.Arrive(sensor, now);
            && d.mode == c.mode && d.waitingSince == c.waitingSince
            && d.es.inside == c.es.inside && d.es.up == c.es.up && d.es.down == c.es.down
  {
    hide Car.Arrive, Car.Consistent, Floors, Halts;
    ArriveIs(c, sensor, now);
  }

  /** The car that the mode-dependent part of the iteration sees. */
  lemma BeforeAct(c: Car, i: Inputs)
    requires Safe(c) && ValidInputs(c.b, i) && c.Accepts(i.command)
    ensures var d := c.Obey(i.command, i.now).Arrive(i.sensor, i.now);
            && Safe(d) && d.b == c.b && (i.sensor == NO_FLOOR || d.es.lastFloor == i.sensor)
            && d.es.inside == c.es.inside && c.es.up <= d.es.up && c.es.down <= d.es.down
  {
    ObeySafe(c, i.command, i.now);
    ArriveSafe(c.Obey(i.command, i.now), i.sensor, i.now);
    hide Safe, Car.Obey, Car.Arrive;
    ObeyKeeps(c, i.command, i.now);
    ArriveKeeps(c.Obey(i.command, i.now), i.sensor, i.now);
  }

  lemma ServeDrops(c: Car, i: Inputs)
    requires Safe(c) && ValidInputs(c.b, i) && c.Accepts(i.command) && c.Serve(i).Continue?
    ensures Drops(c, c.Serve(i).car, i.sensor)
  {
    hide Drops, Safe, Car.Obey, Car.Arrive, Car.Act;
    var a := c.Obey(i.command, i.now).Arrive(i.sensor, i.now);
    BeforeAct(c, i);
    ActDrops(a, i.sensor, i.now);
    DropsFrame(c, a, a.Act(i.sensor, i.now).car, c.Serve(i).car, i.sensor);
  }

  /** Requests are dropped only where the car is, in every iteration from every safe state: an
      inside request as the door opens at its floor, a hall call while the last floor is its floor. */
  lemma IterateDrops(c: Car, i: Inputs)
    requires Safe(c) && ValidInputs(c.b, i) && c.Iterate(i).Continue?
    ensures Drops(c, c.Iterate(i).car, i.sensor)
  {
    hide Safe, Drops, Car.Poll, Car.Serve;
    PollSafe(c, i);
    PollKeeps(c, i);
    ServeDrops(c.Poll(i), i);
    DropsFrame(c, c.Poll(i), c.Poll(i).Serve(i).car, c.Poll(i).Serve(i).car, i.sensor);
  }

  // ---- bounded service

  /** Floor changes left before a car moving up at floor p serves f: straight up, or to the top
      and back down. */
  function RankUp(b: Bounds, p: int, f: int): int {
    if f > p then f - p else (b.max - p) + (b.max - f)
  }

  function RankDown(b: Bounds, p: int, f: int): int {
    if f < p then p - f else (p - b.min) + (f - b.min)
  }

  /** An upper bound on the floor changes before the inside request f is served. */
  function Rank(c: Car, f: int): int {
    var up := RankUp(c.b, c.es.lastFloor, f);
    var down := RankDown(c.b, c.es.lastFloor, f);
    match c.es.direction
    case Up => up
    case Down => down
    case None =>
      if f == c.es.lastFloor then 0
      else match c.previous
           case Up => up
           case Down => down
           case None => if up > down then up else down
  }

  lemma RankBound(c: Car, f: int)
    requires c.b.Valid() && c.b.Has(f) && c.b.Has(c.es.lastFloor)
    ensures 0 <= Rank(c, f) <= 2 * (c.b.max - c.b.min)
  {
  }

  /** What the sensor can show after the car has moved for one iteration. */
  ghost predicate Reaches(c: Car, sensor: int) {
    match c.es.direction
    case None => sensor == c.es.lastFloor
    case Up => sensor == NO_FLOOR || c.es.lastFloor <= sensor <= c.es.lastFloor + 1
    case Down => sensor == NO_FLOOR || c.es.lastFloor - 1 <= sensor <= c.es.lastFloor
  }

  function Changed(c: Car, d: Car): int {
    if d.es.lastFloor == c.es.lastFloor then 0 else 1
  }

  /** The rank pays for the floor changes between c and d. */
  ghost predicate Pays(c: Car, d: Car, f: int) {
    Changed(c, d) + (if f in d.es.inside then Rank(d, f) else 0) <= Rank(c, f)
  }

  lemma ArrivePays(c: Car, f: int, sensor: int, now: int)
    requires Safe(c) && c.mode != Stopped && f in c.es.inside && Reaches(c, sensor)
    requires sensor == NO_FLOOR || c.b.Has(sensor)
    ensures var d := c.Arrive(sensor, now);
            && d.es.inside == c.es.inside && d.mode == c.mode
            && (d.es.direction == None ==> sensor == d.es.lastFloor)
            && ((sensor == f && d.mode == Normal) || Changed(c, d) + Rank(d, f) <= Rank(c, f))
            && (Changed(c, d) == 1 ==> Rank(c, f) >= 1)
  {
    hide Car.Arrive, Floors;
    assert c.b.Has(f) && c.b.Has(c.es.lastFloor);
    hide Car.Consistent;
    ArriveIs(c, sensor, now);
  }

  lemma OneSide(floors: set<int>, p: int, f: int)
    requires f in floors && f != p
    ensures f > p && !AnyLower(floors, p) ==> |Above(floors, p)| >= |Below(floors, p)|
    ensures f < p && !AnyHigher(floors, p) ==> |Above(floors, p)| < |Below(floors, p)|
  {
    if f > p && !AnyLower(floors, p) {
      assert Below(floors, p) == {};
    }
    if f < p && !AnyHigher(floors, p) {
      assert Above(floors, p) == {};
      assert f in Below(floors, p);
    }
  }

  /** A car that sets off stays on its floor with its requests and takes the priority direction, or
      else the direction that its inside requests leave, or the only one an end floor has. */
  lemma StartDirection(c: Car, direction: Direction, sensor: int)
    requires Safe(c) && (sensor == NO_FLOOR || sensor == c.es.lastFloor)
    ensures var d := c.Start(direction, sensor);
            && d.b == c.b && d.es.inside == c.es.inside && d.es.lastFloor == c.es.lastFloor && d.previous == c.previous
            && d.es.direction == if c.es.lastFloor == c.b.min then Up
                                 else if c.es.lastFloor == c.b.max then Down
                                 else if direction == None
                                 then OptimalDirection(c.es.inside, c.es.up + c.es.down, c.es.lastFloor)
                                 else direction
  {
  }

  lemma ClearCallKeeps(c: Car, kind: ButtonType, floor: int, now: int)
    requires kind != TargetFloor
    ensures var d := c.ClearCall(kind, floor, now);
            && SameMotion(c, d) && d.es.inside == c.es.inside
  {
  }

  lemma ClearDirectionLampKeeps(c: Car, now: int)
    ensures var d := c.ClearDirectionLamp(now);
            && SameMotion(c, d) && d.es.inside == c.es.inside
  {
    hide Car.ClearCall;
    ClearCallKeeps(c, CallDown, c.b.max, now);
    ClearCallKeeps(c, CallUp, c.b.min, now);
    ClearCallKeeps(c, CallDown, c.es.lastFloor, now);
    ClearCallKeeps(c, CallUp, c.es.lastFloor, now);
  }

  lemma RankFrame(c: Car, d: Car, f: int)
    requires d.b == c.b && d.previous == c.previous
    requires d.es.direction == c.es.direction && d.es.lastFloor == c.es.lastFloor
    ensures Rank(d, f) == Rank(c, f)
  {
  }

  /** A halted car that departs for a request does not get further from it. */
  lemma StartPays(c: Car, f: int)
    requires Safe(c) && c.mode == Normal && c.es.direction == None && f in c.es.inside && f != c.es.lastFloor
    ensures var s := c.Start(if c.PriorityInDirection(c.previous) then c.previous else None, c.es.lastFloor);
            s.es.direction != None && Rank(s, f) <= Rank(c, f)
  {
    var p := c.es.lastFloor;
    OneSide(c.es.inside, p, f);
    StartDirection(c, if c.PriorityInDirection(c.previous) then c.previous else None, p);
    hide Car.Start;
  }

  lemma DepartPays(c: Car, f: int, now: int)
    requires Safe(c) && c.mode == Normal && c.es.direction == None && f in c.es.inside && f != c.es.lastFloor
    ensures var d := c.Depart(c.es.lastFloor, now);
            && d.es.direction != None && d.es.inside == c.es.inside && d.mode == Normal
            && d.es.lastFloor == c.es.lastFloor && Rank(d, f) <= Rank(c, f)
  {
    var p := c.es.lastFloor;
    var direction := if c.PriorityInDirection(c.previous) then c.previous else None;
    StartPays(c, f);
    StartDirection(c, direction, p);
    assert c.Start(direction, p).mode == Normal;
    assert f in c.es.All();
    hide Safe, Car.Start, Car.ClearDirectionLamp, Car.PriorityInDirection, ElevatorState.All, OptimalDirection;
    ClearDirectionLampKeeps(c.Start(direction, p).Emit(OtherChange, p, now), now);
  }

  lemma ActPays(c: Car, f: int, sensor: int, now: int)
    requires Safe(c) && c.mode != Stopped && f in c.es.inside
    requires sensor == NO_FLOOR || sensor == c.es.lastFloor
    requires c.es.direction == None ==> sensor == c.es.lastFloor
    ensures c.Act(sensor, now).Continue?
    ensures var d := c.Act(sensor, now).car;
            && d.es.lastFloor == c.es.lastFloor && d.mode != Stopped
            && (f in d.es.inside ==> Rank(d, f) <= Rank(c, f))
            && (sensor == f && c.mode == Normal ==> f !in d.es.inside)
  {
    hide Car.Depart, Car.ClearDirectionLamp;
    if c.mode == WaitingForInButton {
      ClearDirectionLampKeeps(c.CloseDoor(sensor, now), now);
    } else if sensor != NO_FLOOR && c.ShouldStop(sensor) {
      assert Rank(c.OpenDoor(sensor, now), f) <= Rank(c, f) || f == sensor;
    } else if c.es.direction == None {
      DepartPays(c, f, now);
    }
  }

  lemma ServePays(c: Car, f: int, i: Inputs)
    requires Safe(c) && c.mode != Stopped && f in c.es.inside && Reaches(c, i.sensor)
    requires ValidInputs(c.b, i) && c.Accepts(i.command)
    ensures c.Serve(i).Continue? && c.Serve(i).car.mode != Stopped
    ensures Pays(c, c.Serve(i).car, f)
  {
    var o := c.Obey(i.command, i.now);
    var a := o.Arrive(i.sensor, i.now);
    BeforeAct(c, i);
    ObeySafe(c, i.command, i.now);
    ObeyKeeps(c, i.command, i.now);
    hide Safe, Rank, Car.Obey, Car.Arrive, Car.Act;
    RankFrame(c, o, f);
    ArrivePays(o, f, i.sensor, i.now);
    ActPays(a, f, i.sensor, i.now);
    RankFrame(a.Act(i.sensor, i.now).car, c.Serve(i).car, f);
  }

  // ---- runs without stop button and obstruction

  /** The car is where its controller thinks it is: halted at a floor, or moving and not past the
      next one. */
  ghost predicate Located(w: World) {
    var l := w.car.es.lastFloor;
    && Safe(w.car)
    && w.car.mode != Stopped
    && match w.car.es.direction
       case None => w.pos == At(l)
       case Up => w.pos == At(l) || w.pos == Between(l)
       case Down => w.pos == At(l) || w.pos == Between(l - 1)
  }

  /** No stop press and no obstruction, and the command, if any, is addressed to this elevator. */
  ghost predicate Calm(c: Car, i: Inputs) {
    !i.stop && !i.obstruction && c.Accepts(i.command)
  }

  /** What the mode-dependent part does to the motion. */
  lemma ActLocates(c: Car, sensor: int, now: int)
    requires Safe(c) && c.mode != Stopped
    requires sensor == NO_FLOOR || sensor == c.es.lastFloor
    requires c.es.direction == None ==> sensor == c.es.lastFloor
    ensures c.Act(sensor, now).Continue?
    ensures var d := c.Act(sensor, now).car;
            && d.es.lastFloor == c.es.lastFloor && d.mode != Stopped
            && (sensor == NO_FLOOR ==> d.es.direction == c.es.direction)
  {
    hide Safe, Car.Depart, Car.CloseDoor, Car.ForgetCalls, Car.OpenDoor, Car.ShouldStop, Car.TimedOut,
         Car.ClearDirectionLamp;
    SafeMotion(c);
    OpenDoorLocates(c, sensor, now);
    CloseDoorLocates(c, sensor, now);
    DepartLocates(c, sensor, now);
    ClearDirectionLampKeeps(c.CloseDoor(sensor, now), now);
  }

  lemma SafeMotion(c: Car)
    requires Safe(c)
    ensures c.b.Valid() && c.b.Has(c.es.lastFloor) && (c.es.direction != None ==> c.mode == Normal)
  {
  }

  lemma OpenDoorLocates(c: Car, sensor: int, now: int)
    ensures c.OpenDoor(sensor, now).es.lastFloor == c.es.lastFloor && c.OpenDoor(sensor, now).mode == WaitingForInButton
  {
  }

  lemma CloseDoorLocates(c: Car, sensor: int, now: int)
    ensures var d := c.CloseDoor(sensor, now);
            && d.es.lastFloor == c.es.lastFloor && d.es.direction == c.es.direction && d.mode == Normal
            && d.ForgetCalls(sensor, now).es.lastFloor == c.es.lastFloor
            && d.ForgetCalls(sensor, now).es.direction == c.es.direction
            && d.ForgetCalls(sensor, now).mode == Normal
  {
  }

  lemma DepartLocates(c: Car, sensor: int, now: int)
    requires sensor == NO_FLOOR || sensor == c.es.lastFloor
    ensures c.Depart(sensor, now).es.lastFloor == c.es.lastFloor && c.Depart(sensor, now).mode == c.mode
  {
    hide Car.ClearDirectionLamp, ElevatorState.All, OptimalDirection;
    var s := c.Start(if c.PriorityInDirection(c.previous) then c.previous else None, sensor);
    ClearDirectionLampKeeps(c, now);
    ClearDirectionLampKeeps(s.Emit(OtherChange, sensor, now), now);
  }

  lemma ServeLocates(c: Car, i: Inputs)
    requires Safe(c) && c.mode != Stopped && (c.es.direction == None ==> i.sensor != NO_FLOOR)
    requires ValidInputs(c.b, i) && c.Accepts(i.command)
    ensures c.Serve(i).Continue?
    ensures var d := c.Serve(i).car;
            && d.mode != Stopped
            && d.es.lastFloor == (if i.sensor == NO_FLOOR then c.es.lastFloor else i.sensor)
            && (i.sensor == NO_FLOOR ==> d.es.direction == c.es.direction != None)
  {
    var o := c.Obey(i.command, i.now);
    var a := o.Arrive(i.sensor, i.now);
    BeforeAct(c, i);
    ObeyKeeps(c, i.command, i.now);
    ArriveMotion(o, i.sensor, i.now);
    hide Safe, Car.Obey, Car.Arrive, Car.Act;
    ActLocates(a, i.sensor, i.now);
  }

  lemma ArriveMotion(c: Car, sensor: int, now: int)
    requires c.b.Valid() && c.mode != Stopped && (c.es.direction == None ==> sensor != NO_FLOOR)
    requires sensor == NO_FLOOR || c.b.Has(sensor)
    ensures var d := c.Arrive(sensor, now);
            && d.mode == c.mode && d.es.lastFloor == (if sensor == NO_FLOOR then c.es.lastFloor else sensor)
            && (sensor == NO_FLOOR ==> d.es.direction == c.es.direction != None)
            && (d.es.direction == None ==> sensor == d.es.lastFloor)
  {
    hide Car.Arrive;
    ArriveIs(c, sensor, now);
  }

  lemma DriveReaches(w: World, i: Inputs, w': World)
    requires Located(w) && Drive(w.pos, w.car.motor, w'.pos) && i.sensor == Sample(w'.pos)
    ensures ValidInputs(w.car.b, i) && Reaches(w.car, i.sensor)
  {
  }

  lemma CalmIterate(c: Car, i: Inputs)
    requires Safe(c) && c.mode != Stopped && Reaches(c, i.sensor) && ValidInputs(c.b, i) && Calm(c, i)
    ensures c.Iterate(i).Continue?
    ensures var d := c.Iterate(i).car;
            && Safe(d) && d.b == c.b && d.mode != Stopped
            && d.es.lastFloor == (if i.sensor == NO_FLOOR then c.es.lastFloor else i.sensor)
            && (i.sensor == NO_FLOOR ==> d.es.direction == c.es.direction != None)
            && (forall f :: f in c.es.inside ==> Pays(c, d, f))
  {
    var p := c.Poll(i);
    PollSafe(c, i);
    PollKeeps(c, i);
    IterateSafe(c, i);
    assert c.Consistent();
    hide Safe, Rank, Car.Consistent, Car.Poll, Car.Serve;
    ServeLocates(p, i);
    forall f | f in c.es.inside
      ensures Pays(c, p.Serve(i).car, f)
    {
      ServePays(p, f, i);
      RankFrame(c, p, f);
    }
  }

  /** The controller keeps track of the car and never fails an assertion, and every floor change
      brings each inside request closer to being served. */
  lemma CalmStep(w: World, i: Inputs, w': World)
    requires Located(w) && Step(w, i, w') && Calm(w.car, i)
    ensures Located(w') && w'.car.b == w.car.b
    ensures forall f :: f in w.car.es.inside ==> Pays(w.car, w'.car, f)
  {
    DriveReaches(w, i, w');
    CalmIterate(w.car, i);
    hide Pays, Car.Iterate;
  }

  ghost predicate CalmRun(ws: seq<World>, inputs: seq<Inputs>) {
    Run(ws, inputs) && forall k :: 0 <= k < |inputs| ==> Calm(ws[k].car, inputs[k])
  }

  /** How often the last floor changes along a run. */
  function Changes(ws: seq<World>): nat {
    if |ws| <= 1 then 0 else Changes(ws[..|ws| - 1]) + Changed(ws[|ws| - 2].car, ws[|ws| - 1].car)
  }

  lemma {:induction false} LocatedAlways(ws: seq<World>, inputs: seq<Inputs>)
    requires CalmRun(ws, inputs) && Located(ws[0])
    ensures Located(ws[|ws| - 1]) && ws[|ws| - 1].car.b == ws[0].car.b
    decreases |ws|
  {
    if inputs != [] {
      var n := |inputs| - 1;
      LocatedAlways(ws[..n + 1], inputs[..n]);
      hide Located, Step, Calm;
      CalmStep(ws[n], inputs[n], ws[n + 1]);
    }
  }

  lemma {:induction false} RankPaysForRun(ws: seq<World>, inputs: seq<Inputs>, f: int)
    requires CalmRun(ws, inputs) && Located(ws[0])
    requires forall k :: 0 <= k < |inputs| ==> f in ws[k].car.es.inside
    ensures var last := ws[|ws| - 1].car;
            Changes(ws) + (if f in last.es.inside then Rank(last, f) else 0)
            <= if inputs == [] && f !in last.es.inside then 0 else Rank(ws[0].car, f)
    decreases |ws|
  {
    if inputs != [] {
      var n := |inputs| - 1;
      RankPaysForRun(ws[..n + 1], inputs[..n], f);
      LocatedAlways(ws[..n + 1], inputs[..n]);
      hide Located, Step, Calm, Rank;
      CalmStep(ws[n], inputs[n], ws[n + 1]);
      assert ws[..n + 2] == ws;
      assert Pays(ws[n].car, ws[n + 1].car, f);
    }
  }

  /** Bounded service. From a car at a floor (or travelling between floors), in every run without
      stop button and obstruction, whatever other buttons and commands arrive: as long as the
      inside request f is pending, and up to and including the iteration that serves it, the car
      changes floor at most 2 * (max - min) times. */
  lemma InsideRequestsAreServed(ws: seq<World>, inputs: seq<Inputs>, f: int)
    requires CalmRun(ws, inputs) && Located(ws[0])
    requires forall k :: 0 <= k < |inputs| ==> f in ws[k].car.es.inside
    ensures Changes(ws) <= 2 * (ws[0].car.b.max - ws[0].car.b.min)
  {
    RankPaysForRun(ws, inputs, f);
    if inputs != [] {
      assert ws[0].car.b.Has(f);
      RankBound(ws[0].car, f);
      if f in ws[|ws| - 1].car.es.inside {
        LocatedAlways(ws, inputs);
        RankBound(ws[|ws| - 1].car, f);
      }
    }
  }

  /** The premise of bounded service is met after the first iteration of a car that is put into
      service at any floor, whatever floor it believes to be at. */
  lemma FirstIterationLocates(c: Car, floor: int, i: Inputs, w': World)
    requires Parked(c) && c.b.Has(floor) && !c.stopLamp
    requires Step(World(c.Initialize(), At(floor)), i, w') && Calm(c.Initialize(), i)
    ensures Located(w')
  {
    var d := c.Initialize();
    InitializeSafe(c);
    PollSafe(d, i);
    PollKeeps(d, i);
    IterateSafe(d, i);
    assert d.Consistent() && d.es.direction == None && d.mode != Stopped && i.sensor == floor;
    hide Car.Consistent, Car.Poll, Car.Serve, Car.Initialize;
    ServeLocates(d.Poll(i), i);
  }

  // ---- progress and failures

  /** A car with an inside request and a closed door does not stay put: an iteration in state Normal
      opens the door at the current floor or leaves the car moving. */
  lemma NeverParked(c: Car, i: Inputs)
    requires Safe(c) && c.mode == Normal && c.es.inside != {} && Calm(c, i)
    requires ValidInputs(c.b, i) && Reaches(c, i.sensor)
    ensures c.Iterate(i).Continue?
    ensures var d := c.Iterate(i).car; d.mode == WaitingForInButton || d.es.direction != None
  {
    PollSafe(c, i);
    PollKeeps(c, i);
    var p := c.Poll(i);
    assert c.Consistent();
    hide Safe, Car.Poll, Car.Serve, Car.Consistent;
    ServeNeverParks(p, i);
  }

  lemma ServeNeverParks(c: Car, i: Inputs)
    requires Safe(c) && c.mode == Normal && c.es.inside != {} && c.Accepts(i.command)
    requires ValidInputs(c.b, i) && Reaches(c, i.sensor)
    ensures c.Serve(i).Continue?
    ensures var d := c.Serve(i).car; d.mode == WaitingForInButton || d.es.direction != None
  {
    var o := c.Obey(i.command, i.now);
    var a := o.Arrive(i.sensor, i.now);
    BeforeAct(c, i);
    ObeySafe(c, i.command, i.now);
    ObeyKeeps(c, i.command, i.now);
    ArriveMotion(o, i.sensor, i.now);
    ArriveKeeps(o, i.sensor, i.now);
    hide Safe, Car.Obey, Car.Arrive, Car.Depart, Car.ShouldStop;
    if a.es.direction == None && !a.ShouldStop(a.es.lastFloor) {
      var f :| f in a.es.inside;
      assert f != a.es.lastFloor by { InsideStops(a, f); }
      DepartPays(a, f, i.now);
    }
  }

  lemma InsideStops(c: Car, f: int)
    ensures f in c.es.inside ==> c.ShouldStop(f)
  {
  }

  /** An iteration fails an assertion exactly when its command is for another elevator or for a floor
      that does not exist, or when the door wait times out with the car not at a floor. */
  lemma FailsExactly(c: Car, i: Inputs)
    requires Safe(c) && ValidInputs(c.b, i)
    ensures c.Iterate(i).Failed? <==>
              !i.obstruction && (IsRefused(c, i.command) || TimesOutBetweenFloors(c, i))
  {
    PollSafe(c, i);
    var p := c.Poll(i);
    PollKeeps(c, i);
    PollMode(c, i);
    assert c.Consistent() && p.Accepts(i.command) == !IsRefused(c, i.command);
    hide Safe, Car.Poll, Car.Serve, Car.Accepts, Car.Consistent;
    if p.Accepts(i.command) {
      ServeFails(p, i);
    }
  }

  /** The command is for another elevator, or for a floor that does not exist. */
  predicate IsRefused(c: Car, command: Maybe<Command>) {
    command.Just?
    && ((command.value.target != c.es.id && command.value.target != ANY_ID)
        || (command.value.commandType != Empty && !(c.b.min <= command.value.floor <= c.b.max)))
  }

  predicate TimesOutBetweenFloors(c: Car, i: Inputs) {
    c.mode == WaitingForInButton && !(i.stop && !c.stopNow) && c.waitingSince + 5000 < i.now && i.sensor == NO_FLOOR
  }

  lemma PollMode(c: Car, i: Inputs)
    requires Safe(c)
    ensures var p := c.Poll(i);
            && p.waitingSince == c.waitingSince
            && (p.mode == WaitingForInButton <==> c.mode == WaitingForInButton && !(i.stop && !c.stopNow))
  {
    PollPanel(c, i.pressed, i.now);
  }

  lemma ServeFails(c: Car, i: Inputs)
    requires Safe(c) && ValidInputs(c.b, i) && c.Accepts(i.command)
    ensures c.Serve(i).Failed? <==>
              c.mode == WaitingForInButton && c.TimedOut(i.now) && i.sensor == NO_FLOOR
  {
    BeforeAct(c, i);
    ObeySafe(c, i.command, i.now);
    ObeyKeeps(c, i.command, i.now);
    ArriveKeeps(c.Obey(i.command, i.now), i.sensor, i.now);
    hide Safe, Car.Obey, Car.Arrive;
  }
}
