/**
 The messages an elevator sends are true: a hall call that leaves its sets is reported as served in
 the same iteration, and a call reported as served is gone at the end of that iteration.
*/
module ElevatorReports {
  import opened ElevatorTypes
  import opened ElevatorControl
  import opened ElevatorSafety

  /** How often a change of this kind at this floor was sent. */
  function Reports(sent: seq<StateChange>, kind: ChangeType, floor: int): nat {
    if sent == [] then 0
    else
      var last := sent[|sent| - 1];
      Reports(sent[..|sent| - 1], kind, floor)
      + if last.changeType == kind && last.changeFloor == floor then 1 else 0
  }

  lemma ReportsSnoc(sent: seq<StateChange>, e: StateChange, kind: ChangeType, floor: int)
    ensures Reports(sent + [e], kind, floor)
         == Reports(sent, kind, floor) + if e.changeType == kind && e.changeFloor == floor then 1 else 0
  {
    assert (sent + [e])[..|sent|] == sent;
  }

  function Calls(c: Car, kind: ChangeType): set<int> {
    if kind == ServedUp then c.es.up else c.es.down
  }

  /** Between c and d, the call at this floor was reported as served if it was dropped, and is gone if
      it was reported as served. */
  ghost predicate Honest(c: Car, d: Car, kind: ChangeType, floor: int) {
    && Reports(c.sent, kind, floor) <= Reports(d.sent, kind, floor)
    && (floor in Calls(c, kind) && floor !in Calls(d, kind) ==>
          Reports(c.sent, kind, floor) < Reports(d.sent, kind, floor))
    && (Reports(c.sent, kind, floor) < Reports(d.sent, kind, floor) ==> floor !in Calls(d, kind))
  }

  /** No report of this kind between c and d, and no call dropped. */
  ghost predicate Quiet(c: Car, d: Car, kind: ChangeType, floor: int) {
    Reports(c.sent, kind, floor) == Reports(d.sent, kind, floor) && Calls(c, kind) <= Calls(d, kind)
  }

  predicate PressKind(change: ChangeType) {
    change == ButtonUpPressed || change == ButtonDownPressed || change == InsideButtonPressed
  }

  /** The kinds of reports that this module follows. */
  predicate Followed(change: ChangeType) {
    change == ServedUp || change == ServedDown || PressKind(change)
  }

  lemma QuietTransitive(c: Car, d: Car, e: Car, kind: ChangeType, floor: int)
    requires Quiet(c, d, kind, floor) && Quiet(d, e, kind, floor)
    ensures Quiet(c, e, kind, floor)
  {
  }

  lemma QuietThenHonest(c: Car, d: Car, e: Car, f: Car, kind: ChangeType, floor: int)
    requires Quiet(c, d, kind, floor) && Honest(d, e, kind, floor) && Quiet(e, f, kind, floor)
    requires Calls(f, kind) == Calls(e, kind)
    ensures Honest(c, f, kind, floor)
  {
  }

  lemma EmitReports(c: Car, change: ChangeType, at: int, now: int, kind: ChangeType, floor: int)
    ensures var d := c.Emit(change, at, now);
            && d.es == c.es
            && Reports(d.sent, kind, floor)
               == Reports(c.sent, kind, floor) + if change == kind && at == floor then 1 else 0
  {
    ReportsSnoc(c.sent, StateChange(change, at, c.es.(timestamp := now)), kind, floor);
  }

  lemma PressQuiet(c: Car, btn: Button, pressed: set<Button>, now: int, kind: ChangeType, floor: int)
    requires kind == ServedUp || kind == ServedDown
    ensures Quiet(c, c.Press(btn, pressed, now), kind, floor)
  {
    if btn in pressed {
      var lit := c.SetLamp(btn, true);
      var noted := if btn.kind == TargetFloor
                   then lit.(es := lit.es.(inside := lit.es.inside + {btn.floor})) else lit;
      EmitReports(noted, PressedKind(btn.kind), btn.floor, now, kind, floor);
      hide Reports;
    }
  }

  lemma {:induction false} PressAllQuiet(c: Car, btns: seq<Button>, pressed: set<Button>, now: int,
                                         kind: ChangeType, floor: int)
    requires kind == ServedUp || kind == ServedDown
    ensures Quiet(c, c.PressAll(btns, pressed, now), kind, floor)
  {
    hide Reports, Car.Press, Quiet;
    if btns != [] {
      var n := |btns| - 1;
      PressAllQuiet(c, btns[..n], pressed, now, kind, floor);
      PressQuiet(c.PressAll(btns[..n], pressed, now), btns[n], pressed, now, kind, floor);
      QuietTransitive(c, c.PressAll(btns[..n], pressed, now), c.PressAll(btns, pressed, now), kind, floor);
    } else {
      QuietReflexive(c, kind, floor);
    }
  }

  lemma QuietReflexive(c: Car, kind: ChangeType, floor: int)
    ensures Quiet(c, c, kind, floor)
  {
  }

  lemma ToggleStopQuiet(c: Car, sensor: int, now: int, kind: ChangeType, floor: int)
    requires Followed(kind)
    ensures Quiet(c, c.ToggleStop(sensor, now), kind, floor)
  {
    hide Reports, Car.Start, OptimalDirection;
    var lamp := !c.stopLamp;
    var e := c.(es := c.es.(stopped := lamp), stopLamp := lamp);
    StartQuiet(e, c.previous, sensor);
    var d := if lamp then e.Halt().(mode := Stopped) else e.Start(c.previous, sensor).(mode := Normal);
    EmitReports(d.Observe(sensor), OtherChange, sensor, now, kind, floor);
  }

  lemma StartQuiet(c: Car, direction: Direction, sensor: int)
    ensures var d := c.Start(direction, sensor); d.sent == c.sent && d.es.up == c.es.up && d.es.down == c.es.down
  {
  }

  lemma PollQuiet(c: Car, i: Inputs, kind: ChangeType, floor: int)
    requires kind == ServedUp || kind == ServedDown
    ensures Quiet(c, c.Poll(i), kind, floor)
  {
    hide Reports, Car.ToggleStop, Car.PressAll;
    var c0 := c.(heldLast := c.held, held := {});
    var c1 := c0.PressAll(FloorButtons(c.b, c.b.max), i.pressed, i.now);
    PressAllQuiet(c0, FloorButtons(c.b, c.b.max), i.pressed, i.now, kind, floor);
    ToggleStopQuiet(c1.(stopNow := i.stop), i.sensor, i.now, kind, floor);
  }

  lemma ObeyQuiet(c: Car, command: Maybe<Command>, now: int, kind: ChangeType, floor: int)
    requires Followed(kind)
    ensures Quiet(c, c.Obey(command, now), kind, floor)
  {
    hide Reports, Car.Emit;
    if command.Just? {
      var at := command.value.floor;
      EmitReports(c.(es := c.es.(up := c.es.up + {at})).SetLamp(Button(CallUp, at), true),
                  GoingToServeUp, at, now, kind, floor);
      EmitReports(c.(es := c.es.(down := c.es.down + {at})).SetLamp(Button(CallDown, at), true),
                  GoingToServeDown, at, now, kind, floor);
    }
  }

  lemma ArriveQuiet(c: Car, sensor: int, now: int, kind: ChangeType, floor: int)
    requires Followed(kind)
    ensures Quiet(c, c.Arrive(sensor, now), kind, floor)
  {
    hide Followed, Quiet, Car.Emit, Car.Halt, Car.Observe;
    var o := c.Observe(sensor);
    assert o.sent == c.sent && o.es.up == c.es.up && o.es.down == c.es.down by {
      ObserveIs(c, sensor);
    }
    HaltedQuiet(c, o, sensor, now, kind, floor);
    HaltedQuiet(c, o.Halt(), sensor, now, kind, floor);
    HaltedQuiet(c, o.Halt().Halt(), sensor, now, kind, floor);
  }

  lemma HaltedQuiet(c: Car, d: Car, sensor: int, now: int, kind: ChangeType, floor: int)
    requires Followed(kind) && d.sent == c.sent && d.es.up == c.es.up && d.es.down == c.es.down
    ensures Quiet(c, d, kind, floor) && Quiet(c, d.Emit(OtherChange, sensor, now), kind, floor)
    ensures var h := d.Halt(); h.sent == c.sent && h.es.up == c.es.up && h.es.down == c.es.down
  {
    hide Reports, Car.Emit, Car.Halt;
    EmitReports(d, OtherChange, sensor, now, kind, floor);
    HaltIs(d);
  }

  lemma ClearCallHonest(c: Car, btn: ButtonType, at: int, now: int, kind: ChangeType, floor: int)
    requires btn != TargetFloor && (kind == ServedUp || kind == ServedDown)
    ensures Honest(c, c.ClearCall(btn, at, now), kind, floor)
  {
    hide Reports;
    EmitReports(c.(es := c.es.(up := c.es.up - {at})), ServedUp, at, now, kind, floor);
    EmitReports(c.(es := c.es.(down := c.es.down - {at})), ServedDown, at, now, kind, floor);
  }

  lemma ClearDirectionLampHonest(c: Car, now: int, kind: ChangeType, floor: int)
    requires kind == ServedUp || kind == ServedDown
    ensures Honest(c, c.ClearDirectionLamp(now), kind, floor)
  {
    hide Reports, Calls, Quiet, Honest, Car.ClearCall;
    ClearCallHonest(c, CallDown, c.b.max, now, kind, floor);
    ClearCallHonest(c, CallUp, c.b.min, now, kind, floor);
    ClearCallHonest(c, CallDown, c.es.lastFloor, now, kind, floor);
    ClearCallHonest(c, CallUp, c.es.lastFloor, now, kind, floor);
    QuietReflexive(c, kind, floor);
    QuietIsHonest(c, c, kind, floor);
  }

  lemma DepartHonest(c: Car, sensor: int, now: int, kind: ChangeType, floor: int)
    requires kind == ServedUp || kind == ServedDown
    ensures Honest(c, c.Depart(sensor, now), kind, floor)
  {
    hide Reports, Quiet, Honest, Calls, Car.Start, Car.ClearDirectionLamp, Car.Emit, Car.PriorityInDirection;
    var direction := if c.PriorityInDirection(c.previous) then c.previous else None;
    var e := c.Start(direction, sensor).Emit(OtherChange, sensor, now);
    ClearDirectionLampHonest(c, now, kind, floor);
    ClearDirectionLampHonest(e, now, kind, floor);
    StartedQuiet(c, direction, sensor, now, kind, floor);
    var d := e.ClearDirectionLamp(now);
    QuietReflexive(d, kind, floor);
    QuietThenHonest(c, e, d, d, kind, floor);
  }

  lemma StartedQuiet(c: Car, direction: Direction, sensor: int, now: int, kind: ChangeType, floor: int)
    requires Followed(kind)
    ensures Quiet(c, c.Start(direction, sensor).Emit(OtherChange, sensor, now), kind, floor)
  {
    hide Reports, Car.Start;
    StartQuiet(c, direction, sensor);
    EmitReports(c.Start(direction, sensor), OtherChange, sensor, now, kind, floor);
  }

  lemma CloseDoorHonest(c: Car, sensor: int, now: int, kind: ChangeType, floor: int)
    requires kind == ServedUp || kind == ServedDown
    ensures Honest(c, c.CloseDoor(sensor, now).ForgetCalls(sensor, now), kind, floor)
    ensures Honest(c, c.CloseDoor(sensor, now).ClearDirectionLamp(now), kind, floor)
  {
    hide Reports, Calls, Quiet, Honest, Car.CloseDoor, Car.ForgetCalls, Car.ClearDirectionLamp;
    var d := c.CloseDoor(sensor, now);
    CloseDoorQuiet(c, sensor, now, kind, floor);
    ForgetCallsHonest(d, sensor, now, kind, floor);
    ClearDirectionLampHonest(d, now, kind, floor);
    var f, g := d.ForgetCalls(sensor, now), d.ClearDirectionLamp(now);
    QuietReflexive(f, kind, floor);
    QuietReflexive(g, kind, floor);
    QuietThenHonest(c, d, f, f, kind, floor);
    QuietThenHonest(c, d, g, g, kind, floor);
  }

  lemma CloseDoorQuiet(c: Car, sensor: int, now: int, kind: ChangeType, floor: int)
    requires Followed(kind)
    ensures Quiet(c, c.CloseDoor(sensor, now), kind, floor)
  {
    hide Reports, Car.Emit;
    EmitReports(c.(doorLamp := false, es := c.es.(doorOpen := false), mode := Normal), OtherChange, sensor, now,
                kind, floor);
  }

  lemma ForgetCallsHonest(c: Car, sensor: int, now: int, kind: ChangeType, floor: int)
    requires kind == ServedUp || kind == ServedDown
    ensures Honest(c, c.ForgetCalls(sensor, now), kind, floor)
  {
    hide Reports, Car.Emit;
    var g := c.(es := c.es.(up := c.es.up - {sensor}, down := c.es.down - {sensor}),
                upLamps := c.upLamps - {sensor}, downLamps := c.downLamps - {sensor});
    EmitReports(g, ServedUp, sensor, now, kind, floor);
    EmitReports(g.Emit(ServedUp, sensor, now), ServedDown, sensor, now, kind, floor);
  }

  lemma OpenDoorQuiet(c: Car, sensor: int, now: int, kind: ChangeType, floor: int)
    requires Followed(kind)
    ensures Quiet(c, c.OpenDoor(sensor, now), kind, floor) && Calls(c.OpenDoor(sensor, now), kind) == Calls(c, kind)
  {
    hide Reports;
    var d := c.(insideLamps := c.insideLamps - {sensor},
                es := c.es.(inside := c.es.inside - {sensor}, doorOpen := true),
                doorLamp := true, mode := WaitingForInButton, waitingSince := now);
    EmitReports(d.Halt(), Served, sensor, now, kind, floor);
  }

  lemma QuietIsHonest(c: Car, d: Car, kind: ChangeType, floor: int)
    requires Quiet(c, d, kind, floor) && Calls(d, kind) == Calls(c, kind)
    ensures Honest(c, d, kind, floor)
  {
    hide Reports;
  }

  lemma ActHonest(c: Car, sensor: int, now: int, kind: ChangeType, floor: int)
    requires (kind == ServedUp || kind == ServedDown) && c.Act(sensor, now).Continue?
    ensures Honest(c, c.Act(sensor, now).car, kind, floor)
  {
    hide Reports, Quiet, Honest, Calls, Car.OpenDoor, Car.Depart, Car.CloseDoor, Car.ForgetCalls,
         Car.ClearDirectionLamp, Car.ShouldStop;
    OpenDoorQuiet(c, sensor, now, kind, floor);
    QuietIsHonest(c, c.OpenDoor(sensor, now), kind, floor);
    DepartHonest(c, sensor, now, kind, floor);
    CloseDoorHonest(c, sensor, now, kind, floor);
    QuietReflexive(c, kind, floor);
    QuietIsHonest(c, c, kind, floor);
  }

  lemma FinishQuiet(c: Car, sensor: int, now: int, kind: ChangeType, floor: int)
    requires Followed(kind)
    ensures Quiet(c, c.Finish(sensor, now), kind, floor) && Calls(c.Finish(sensor, now), kind) == Calls(c, kind)
  {
    hide Reports;
    EmitReports(c, KeepAlive, sensor, now, kind, floor);
  }

  lemma ServeHonest(c: Car, i: Inputs, kind: ChangeType, floor: int)
    requires (kind == ServedUp || kind == ServedDown) && c.Serve(i).Continue?
    ensures Honest(c, c.Serve(i).car, kind, floor)
  {
    hide Reports, Quiet, Honest, Car.Obey, Car.Arrive, Car.Act, Car.Finish;
    var o := c.Obey(i.command, i.now);
    var a := o.Arrive(i.sensor, i.now);
    var d := a.Act(i.sensor, i.now).car;
    ObeyQuiet(c, i.command, i.now, kind, floor);
    ArriveQuiet(o, i.sensor, i.now, kind, floor);
    QuietTransitive(c, o, a, kind, floor);
    ActHonest(a, i.sensor, i.now, kind, floor);
    FinishQuiet(d, i.sensor, i.now, kind, floor);
    QuietThenHonest(c, a, d, d.Finish(i.sensor, i.now), kind, floor);
  }

  /** Reports of served hall calls are complete and true in every iteration from any state. */
  lemma ServedReportsAreHonest(c: Car, i: Inputs, kind: ChangeType, floor: int)
    requires (kind == ServedUp || kind == ServedDown) && c.Iterate(i).Continue?
    ensures Honest(c, c.Iterate(i).car, kind, floor)
  {
    hide Reports, Quiet, Honest, Car.Poll, Car.Serve, Car.Consistent, Car.Accepts;
    var p := c.Poll(i);
    var d := p.Serve(i).car;
    PollQuiet(c, i, kind, floor);
    ServeHonest(p, i, kind, floor);
    QuietReflexive(d, kind, floor);
    QuietThenHonest(c, p, d, d, kind, floor);
  }

  // ---- pressed buttons

  /** The button is on the panel and pressed, and its lamp is dark. */
  predicate NewlyPressed(c: Car, i: Inputs, btn: Button) {
    && OnPanel(c.b, c.b.max, btn) && btn in i.pressed
    && btn.floor !in match btn.kind
                     case CallUp => c.upLamps
                     case CallDown => c.downLamps
                     case TargetFloor => c.insideLamps
  }

  function PressOf(kind: ButtonType): (change: ChangeType)
    ensures PressKind(change)
  {
    match kind
    case CallUp => ButtonUpPressed
    case CallDown => ButtonDownPressed
    case TargetFloor => InsideButtonPressed
  }

  lemma PressReports(c: Car, btn: Button, pressed: set<Button>, now: int, of: Button)
    ensures Reports(c.Press(btn, pressed, now).sent, PressOf(of.kind), of.floor)
         == Reports(c.sent, PressOf(of.kind), of.floor)
            + if btn == of && btn in pressed && btn.floor !in c.Lamps(btn.kind) then 1 else 0
  {
    hide Reports, Car.Emit, Car.SetLamp;
    var lit := c.SetLamp(btn, true);
    SetLampIs(c, btn, true);
    var noted := if btn.kind == TargetFloor
                 then lit.(es := lit.es.(inside := lit.es.inside + {btn.floor})) else lit;
    EmitReports(noted, PressedKind(btn.kind), btn.floor, now, PressOf(of.kind), of.floor);
  }

  lemma {:induction false} PollReports(c: Car, btns: seq<Button>, pressed: set<Button>, now: int, of: Button)
    ensures Reports(c.PressAll(btns, pressed, now).sent, PressOf(of.kind), of.floor)
         == Reports(c.sent, PressOf(of.kind), of.floor)
            + if of in btns && of in pressed && of.floor !in c.Lamps(of.kind) then 1 else 0
  {
    hide Reports, Car.Press, PressOf, Car.Lamps;
    if btns != [] {
      var n := |btns| - 1;
      PollReports(c, btns[..n], pressed, now, of);
      PressReports(c.PressAll(btns[..n], pressed, now), btns[n], pressed, now, of);
      LitAfter(c, btns[..n], pressed, now, of);
    }
  }

  lemma LitAfter(c: Car, btns: seq<Button>, pressed: set<Button>, now: int, of: Button)
    ensures of.floor in c.PressAll(btns, pressed, now).Lamps(of.kind)
       <==> of.floor in c.Lamps(of.kind) || (of in btns && of in pressed)
  {
    hide Car.PressAll;
    PressAllMeaning(c, btns, pressed, now);
    assert of.floor in PressedFloors(of.kind, btns, pressed) <==> of in btns && of in pressed;
  }

  predicate SameReports(c: Car, d: Car, change: ChangeType, floor: int) {
    Reports(d.sent, change, floor) == Reports(c.sent, change, floor)
  }

  lemma ClearCallPresses(c: Car, kind: ButtonType, at: int, now: int, change: ChangeType, floor: int)
    requires kind != TargetFloor && PressKind(change)
    ensures SameReports(c, c.ClearCall(kind, at, now), change, floor)
  {
    hide Reports, Car.Emit;
    EmitReports(c.(es := c.es.(up := c.es.up - {at})), ServedUp, at, now, change, floor);
    EmitReports(c.(es := c.es.(down := c.es.down - {at})), ServedDown, at, now, change, floor);
  }

  lemma ClearDirectionLampPresses(c: Car, now: int, change: ChangeType, floor: int)
    requires PressKind(change)
    ensures SameReports(c, c.ClearDirectionLamp(now), change, floor)
  {
    hide Reports, Car.ClearCall, PressKind;
    ClearCallPresses(c, CallDown, c.b.max, now, change, floor);
    ClearCallPresses(c, CallUp, c.b.min, now, change, floor);
    ClearCallPresses(c, CallDown, c.es.lastFloor, now, change, floor);
    ClearCallPresses(c, CallUp, c.es.lastFloor, now, change, floor);
  }

  lemma ForgetCallsPresses(c: Car, at: int, now: int, change: ChangeType, floor: int)
    requires PressKind(change)
    ensures SameReports(c, c.ForgetCalls(at, now), change, floor)
  {
    hide Reports, Car.Emit;
    var g := c.(es := c.es.(up := c.es.up - {at}, down := c.es.down - {at}),
                upLamps := c.upLamps - {at}, downLamps := c.downLamps - {at});
    EmitReports(g, ServedUp, at, now, change, floor);
    EmitReports(g.Emit(ServedUp, at, now), ServedDown, at, now, change, floor);
  }

  lemma ActPresses(c: Car, sensor: int, now: int, change: ChangeType, floor: int)
    requires PressKind(change)
    ensures SameReports(c, c.Act(sensor, now).car, change, floor)
  {
    hide Reports, Calls, PressKind, Car.Start, Car.OpenDoor, Car.CloseDoor, Car.ForgetCalls, Car.ClearDirectionLamp,
         Car.Emit, Car.ShouldStop, Car.PriorityInDirection, Car.TimedOut;
    var direction := if c.PriorityInDirection(c.previous) then c.previous else None;
    var s, d := c.Start(direction, sensor).Emit(OtherChange, sensor, now), c.CloseDoor(sensor, now);
    OpenDoorQuiet(c, sensor, now, change, floor);
    StartedQuiet(c, direction, sensor, now, change, floor);
    ClearDirectionLampPresses(s, now, change, floor);
    ClearDirectionLampPresses(c, now, change, floor);
    CloseDoorQuiet(c, sensor, now, change, floor);
    ForgetCallsPresses(d, sensor, now, change, floor);
    ClearDirectionLampPresses(d, now, change, floor);
  }

  /** Nothing but a press of a button is reported as one. */
  lemma ServePresses(p: Car, i: Inputs, change: ChangeType, floor: int)
    requires PressKind(change)
    ensures SameReports(p, p.Serve(i).car, change, floor)
  {
    hide Reports, Calls, PressKind, Car.Obey, Car.Arrive, Car.Act, Car.Finish;
    var o := p.Obey(i.command, i.now);
    var a := o.Arrive(i.sensor, i.now);
    ObeyQuiet(p, i.command, i.now, change, floor);
    ArriveQuiet(o, i.sensor, i.now, change, floor);
    ActPresses(a, i.sensor, i.now, change, floor);
    FinishQuiet(a.Act(i.sensor, i.now).car, i.sensor, i.now, change, floor);
  }

  lemma PollPresses(c: Car, i: Inputs, btn: Button)
    ensures Reports(c.Poll(i).sent, PressOf(btn.kind), btn.floor)
         == Reports(c.sent, PressOf(btn.kind), btn.floor) + if NewlyPressed(c, i, btn) then 1 else 0
  {
    hide Reports, Calls, OnPanel, FloorButtons, Car.PressAll, Car.ToggleStop, PressOf, PressKind;
    var c0, btns := c.(heldLast := c.held, held := {}), FloorButtons(c.b, c.b.max);
    var c1 := c0.PressAll(btns, i.pressed, i.now);
    FloorButtonsMembers(c.b, c.b.max);
    PollReports(c0, btns, i.pressed, i.now, btn);
    ToggleStopQuiet(c1.(stopNow := i.stop), i.sensor, i.now, PressOf(btn.kind), btn.floor);
  }

  /** A dark button of the panel that is pressed is reported once, as what it is and with its floor; a lit
      button, or one that is not pressed, is not reported. */
  lemma PressesAreReported(c: Car, i: Inputs, btn: Button)
    requires c.Consistent()
    ensures var change := match btn.kind
                          case CallUp => ButtonUpPressed
                          case CallDown => ButtonDownPressed
                          case TargetFloor => InsideButtonPressed;
            Reports(c.Iterate(i).car.sent, change, btn.floor)
            == Reports(c.sent, change, btn.floor) + if NewlyPressed(c, i, btn) then 1 else 0
  {
    hide Reports, NewlyPressed, Car.Poll, Car.Serve, Car.Accepts, Car.Consistent, PressKind;
    PollPresses(c, i, btn);
    ServePresses(c.Poll(i), i, PressOf(btn.kind), btn.floor);
  }
}
