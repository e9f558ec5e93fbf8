/**
 A hall call from end to end: what an elevator reports is what the scheduler of its site waits for, and what the
 scheduler sends is what the chosen elevator takes.
*/
module HallCallChain {
  import opened ElevatorTypes
  import opened ElevatorControl
  import opened ElevatorHallCalls
  import opened ElevatorReports
  import opened ElevatorSafety
  import opened Requests
  import opened SchedulerCalls
  import opened SchedulerLoop

  // ---- reports are added at the end, under the id of the elevator

  predicate Appends(c: Car, d: Car) {
    && d.es.id == c.es.id && c.sent <= d.sent
    && forall k :: |c.sent| <= k < |d.sent| ==> d.sent[k].state.id == c.es.id
  }

  lemma AppendsMore(c: Car, d: Car, e: Car)
    requires Appends(c, d) && Appends(d, e)
    ensures Appends(c, e)
  {
  }

  lemma AppendsNothing(c: Car, d: Car)
    requires d.es.id == c.es.id && d.sent == c.sent
    ensures Appends(c, d)
  {
  }

  lemma AppendsOne(c: Car, d: Car, kind: ChangeType, floor: int, now: int)
    requires d.es.id == c.es.id && d.sent == c.sent
    ensures Appends(c, d.Emit(kind, floor, now))
  {
  }

  lemma PressAppends(c: Car, btn: Button, pressed: set<Button>, now: int)
    ensures Appends(c, c.Press(btn, pressed, now))
  {
    hide Appends, Car.Emit, Car.SetLamp;
    var lit := c.SetLamp(btn, true);
    SetLampIs(c, btn, true);
    var noted := if btn.kind == TargetFloor
                 then lit.(es := lit.es.(inside := lit.es.inside + {btn.floor})) else lit;
    AppendsNothing(c, c);
    AppendsOne(c, noted, PressedKind(btn.kind), btn.floor, now);
    var e := noted.Emit(PressedKind(btn.kind), btn.floor, now);
    AppendsNothing(e, e.(held := e.held + {btn.floor}));
    AppendsMore(c, e, e.(held := e.held + {btn.floor}));
    AppendsNothing(c, c.(held := c.held + {btn.floor}));
  }

  lemma {:induction false} PressAllAppends(c: Car, btns: seq<Button>, pressed: set<Button>, now: int)
    ensures Appends(c, c.PressAll(btns, pressed, now))
  {
    hide Appends, Car.Press;
    if btns == [] {
      AppendsNothing(c, c);
    } else {
      var n := |btns| - 1;
      PressAllAppends(c, btns[..n], pressed, now);
      PressAppends(c.PressAll(btns[..n], pressed, now), btns[n], pressed, now);
      AppendsMore(c, c.PressAll(btns[..n], pressed, now), c.PressAll(btns, pressed, now));
    }
  }

  lemma ToggleStopAppends(c: Car, sensor: int, now: int)
    ensures Appends(c, c.ToggleStop(sensor, now))
  {
    hide Appends, Car.Start, Car.Halt, Car.Observe, Car.Emit;
    var lamp := !c.stopLamp;
    var e := c.(es := c.es.(stopped := lamp), stopLamp := lamp);
    StartSends(e, c.previous, sensor);
    HaltIs(e);
    var d := if lamp then e.Halt().(mode := Stopped) else e.Start(c.previous, sensor).(mode := Normal);
    ObserveIs(d, sensor);
    AppendsOne(c, d.Observe(sensor), OtherChange, sensor, now);
  }

  lemma StartSends(c: Car, direction: Direction, sensor: int)
    ensures c.Start(direction, sensor).sent == c.sent && c.Start(direction, sensor).es.id == c.es.id
  {
    hide OptimalDirection;
  }

  lemma PollAppends(c: Car, i: Inputs)
    ensures Appends(c, c.Poll(i))
  {
    hide Appends, Car.PressAll, Car.ToggleStop, FloorButtons;
    var c0 := c.(heldLast := c.held, held := {});
    var c1 := c0.PressAll(FloorButtons(c.b, c.b.max), i.pressed, i.now);
    var c2 := c1.(stopNow := i.stop);
    AppendsNothing(c, c0);
    PressAllAppends(c0, FloorButtons(c.b, c.b.max), i.pressed, i.now);
    AppendsMore(c, c0, c1);
    AppendsNothing(c1, c2);
    AppendsMore(c, c1, c2);
    ToggleStopAppends(c2, i.sensor, i.now);
    AppendsMore(c, c2, c2.ToggleStop(i.sensor, i.now));
  }

  lemma ObeyAppends(c: Car, command: Maybe<Command>, now: int)
    ensures Appends(c, c.Obey(command, now))
  {
    hide Appends, Car.SetLamp, Car.Emit;
    AppendsNothing(c, c);
    if command.Just? {
      var floor := command.value.floor;
      var up := c.(es := c.es.(up := c.es.up + {floor}));
      var down := c.(es := c.es.(down := c.es.down + {floor}));
      SetLampIs(up, Button(CallUp, floor), true);
      SetLampIs(down, Button(CallDown, floor), true);
      AppendsOne(c, up.SetLamp(Button(CallUp, floor), true), GoingToServeUp, floor, now);
      AppendsOne(c, down.SetLamp(Button(CallDown, floor), true), GoingToServeDown, floor, now);
      forall kind, val
        ensures Appends(c, c.SetLamp(Button(kind, floor), val))
      {
        SetLampIs(c, Button(kind, floor), val);
        AppendsNothing(c, c.SetLamp(Button(kind, floor), val));
      }
    }
  }

  lemma ArriveAppends(c: Car, sensor: int, now: int)
    ensures Appends(c, c.Arrive(sensor, now))
  {
    hide Appends, Car.Emit, Car.Halt, Car.Observe;
    var o := c.Observe(sensor);
    assert o.sent == c.sent && o.es.id == c.es.id by {
      ObserveIs(c, sensor);
    }
    HaltedAppends(c, o, sensor, now);
    HaltedAppends(c, o.Halt(), sensor, now);
    HaltedAppends(c, o.Halt().Halt(), sensor, now);
  }

  lemma HaltedAppends(c: Car, d: Car, sensor: int, now: int)
    requires d.sent == c.sent && d.es.id == c.es.id
    ensures Appends(c, d) && Appends(c, d.Emit(OtherChange, sensor, now))
    ensures d.Halt().sent == c.sent && d.Halt().es.id == c.es.id
  {
    hide Appends, Car.Emit, Car.Halt;
    AppendsNothing(c, d);
    AppendsOne(c, d, OtherChange, sensor, now);
    HaltIs(d);
  }

  lemma ClearCallAppends(c: Car, kind: ButtonType, floor: int, now: int)
    ensures Appends(c, c.ClearCall(kind, floor, now))
  {
    hide Appends, Car.SetLamp, Car.Emit;
    var up := c.(es := c.es.(up := c.es.up - {floor}));
    var down := c.(es := c.es.(down := c.es.down - {floor}));
    AppendsOne(c, up, ServedUp, floor, now);
    AppendsOne(c, down, ServedDown, floor, now);
    AppendsNothing(c, c);
    forall d: Car
      ensures Appends(d, d.SetLamp(Button(kind, floor), false))
    {
      SetLampIs(d, Button(kind, floor), false);
      AppendsNothing(d, d.SetLamp(Button(kind, floor), false));
    }
    var u, v := up.Emit(ServedUp, floor, now), down.Emit(ServedDown, floor, now);
    AppendsMore(c, u, u.SetLamp(Button(kind, floor), false));
    AppendsMore(c, v, v.SetLamp(Button(kind, floor), false));
  }

  lemma ClearDirectionLampAppends(c: Car, now: int)
    ensures Appends(c, c.ClearDirectionLamp(now))
  {
    hide Appends, Car.ClearCall;
    AppendsNothing(c, c);
    ClearCallAppends(c, CallDown, c.b.max, now);
    ClearCallAppends(c, CallUp, c.b.min, now);
    ClearCallAppends(c, CallDown, c.es.lastFloor, now);
    ClearCallAppends(c, CallUp, c.es.lastFloor, now);
  }

  lemma DoorAppends(c: Car, sensor: int, now: int)
    ensures Appends(c, c.OpenDoor(sensor, now)) && Appends(c, c.CloseDoor(sensor, now))
    ensures Appends(c, c.ForgetCalls(sensor, now))
  {
    hide Appends, Car.Emit, Car.Halt;
    var o := c.(insideLamps := c.insideLamps - {sensor},
                es := c.es.(inside := c.es.inside - {sensor}, doorOpen := true),
                doorLamp := true, mode := WaitingForInButton, waitingSince := now);
    HaltIs(o);
    AppendsOne(c, o.Halt(), Served, sensor, now);
    AppendsOne(c, c.(doorLamp := false, es := c.es.(doorOpen := false), mode := Normal), OtherChange, sensor, now);
    var f := c.(es := c.es.(up := c.es.up - {sensor}, down := c.es.down - {sensor}),
                upLamps := c.upLamps - {sensor}, downLamps := c.downLamps - {sensor});
    AppendsOne(c, f, ServedUp, sensor, now);
    var g := f.Emit(ServedUp, sensor, now);
    AppendsOne(g, g, ServedDown, sensor, now);
    AppendsMore(c, g, g.Emit(ServedDown, sensor, now));
  }

  lemma ActAppends(c: Car, sensor: int, now: int)
    ensures Appends(c, c.Act(sensor, now).car)
  {
    hide Appends, Car.Start, Car.OpenDoor, Car.CloseDoor, Car.ForgetCalls, Car.ClearDirectionLamp, Car.Emit,
         Car.ShouldStop, Car.PriorityInDirection, Car.TimedOut, ElevatorState.All;
    var direction := if c.PriorityInDirection(c.previous) then c.previous else None;
    var s, d := c.Start(direction, sensor).Emit(OtherChange, sensor, now), c.CloseDoor(sensor, now);
    StartSends(c, direction, sensor);
    AppendsOne(c, c.Start(direction, sensor), OtherChange, sensor, now);
    DoorAppends(c, sensor, now);
    DoorAppends(d, sensor, now);
    AppendsNothing(c, c);
    ClearDirectionLampAppends(c, now);
    ClearDirectionLampAppends(s, now);
    ClearDirectionLampAppends(d, now);
    AppendsMore(c, s, s.ClearDirectionLamp(now));
    AppendsMore(c, d, d.ClearDirectionLamp(now));
    AppendsMore(c, d, d.ForgetCalls(sensor, now));
  }

  lemma FinishAppends(c: Car, sensor: int, now: int)
    ensures Appends(c, c.Finish(sensor, now))
  {
    hide Appends, Car.Emit;
    AppendsNothing(c, c.(prevFloor := sensor));
    var e := c.Emit(KeepAlive, sensor, now);
    AppendsOne(c, c, KeepAlive, sensor, now);
    AppendsNothing(e, e.(prevFloor := sensor));
    AppendsMore(c, e, e.(prevFloor := sensor));
  }

  lemma ServeAppends(p: Car, i: Inputs)
    ensures Appends(p, p.Serve(i).car)
  {
    hide Appends, Car.Obey, Car.Arrive, Car.Act, Car.Finish;
    var o := p.Obey(i.command, i.now);
    var a := o.Arrive(i.sensor, i.now);
    var d := a.Act(i.sensor, i.now).car;
    ObeyAppends(p, i.command, i.now);
    ArriveAppends(o, i.sensor, i.now);
    AppendsMore(p, o, a);
    ActAppends(a, i.sensor, i.now);
    AppendsMore(p, a, d);
    FinishAppends(d, i.sensor, i.now);
    AppendsMore(p, d, d.Finish(i.sensor, i.now));
  }

  lemma IterateAppends(c: Car, i: Inputs)
    ensures Appends(c, c.Iterate(i).car)
  {
    hide Appends, Car.Poll, Car.Serve, Car.Accepts, Car.Consistent;
    var p := c.Poll(i);
    AppendsNothing(c, c.(heldLast := c.held, held := {}));
    PollAppends(c, i);
    ServeAppends(p, i);
    AppendsMore(c, p, p.Serve(i).car);
  }

  /** More reports of a kind mean that one has been added. */
  lemma {:induction false} OneAdded(before: seq<StateChange>, sent: seq<StateChange>, kind: ChangeType, floor: int)
    returns (k: nat)
    requires before <= sent && Reports(before, kind, floor) < Reports(sent, kind, floor)
    ensures |before| <= k < |sent| && sent[k].changeType == kind && sent[k].changeFloor == floor
    decreases |sent|
  {
    var n := |sent| - 1;
    if sent[n].changeType == kind && sent[n].changeFloor == floor && |before| <= n {
      k := n;
    } else {
      assert before != sent;
      assert before <= sent[..n];
      k := OneAdded(before, sent[..n], kind, floor);
    }
  }

  // ---- from the button to the scheduler, to the car, and back

  /** A dark hall button that is pressed is reported, and the scheduler of the site sees it as a press of that
      button. */
  lemma PressIsSeen(c: Car, i: Inputs, btn: Button, site: Site) returns (k: nat)
    requires c.Consistent() && btn.kind != TargetFloor && NewlyPressed(c, i, btn) && site.localId == c.es.id
    ensures var d := c.Iterate(i).car;
            |c.sent| <= k < |d.sent| && Pressed(site, d.sent[k]) == Just(btn)
  {
    hide Reports, NewlyPressed, Car.Iterate, Car.Consistent;
    PressesAreReported(c, i, btn);
    IterateAppends(c, i);
    k := OneAdded(c.sent, c.Iterate(i).car.sent, if btn.kind == CallUp then ButtonUpPressed else ButtonDownPressed,
                  btn.floor);
  }

  /** The call that the site of a press sends to the chosen elevator is one that this elevator accepts. It then
      has the call, for the direction of the button, has lit its lamp, and has sent the announcement that the
      request of the call waits for. */
  lemma CallIsTaken(site: Site, update: StateChange, c: Car, now: int, call: nat, since: nat)
    requires update.changeType == ButtonUpPressed || update.changeType == ButtonDownPressed
    requires update.state.id == site.localId && c.es.id != NO_ID && c.es.id != ANY_ID && c.b.Has(update.changeFloor)
    ensures var sent, f := Arrivals(Commands(site, update, c.es.id), site.localId, c.es.id), update.changeFloor;
            && sent != []
            && var command := sent[|sent| - 1];
               var d := c.Obey(Just(command), now);
               && c.Accepts(Just(command))
               && d.es.up == c.es.up + (if update.changeType == ButtonUpPressed then {f} else {})
               && d.es.down == c.es.down + (if update.changeType == ButtonDownPressed then {f} else {})
               && d.upLamps == c.upLamps + (if update.changeType == ButtonUpPressed then {f} else {})
               && d.downLamps == c.downLamps + (if update.changeType == ButtonDownPressed then {f} else {})
               && |d.sent| == |c.sent| + 1
               && Announces(d.sent[|c.sent|], NewRequest(command, ANSWER, now, call, since))
  {
    PressReachesOneElevator(site, update, c.es.id, c.es.id);
    hide Arrivals, Commands;
  }

  /** At each site that processes it, the report of a press lights the lamp of the button. */
  lemma PressLightsLamp(site: Site, update: StateChange, choice: int, c: Car, now: int)
    requires update.changeType == ButtonUpPressed || update.changeType == ButtonDownPressed
    requires c.es.id == site.localId && c.es.id != NO_ID && c.es.id != ANY_ID && choice != ANY_ID
    requires c.b.Has(update.changeFloor)
    ensures var sent, f := Arrivals(Commands(site, update, choice), site.localId, c.es.id), update.changeFloor;
            && sent != [] && c.Accepts(Just(sent[0]))
            && c.Obey(Just(sent[0]), now) == if update.changeType == ButtonUpPressed
                                             then c.(upLamps := c.upLamps + {f})
                                             else c.(downLamps := c.downLamps + {f})
  {
    PressReachesOneElevator(site, update, choice, c.es.id);
    hide Arrivals, Commands;
  }

  /** The report of a service switches it off. */
  lemma ServiceDarkensLamp(site: Site, update: StateChange, choice: int, c: Car, now: int)
    requires update.changeType == ServedUp || update.changeType == ServedDown
    requires c.es.id == site.localId && c.es.id != ANY_ID && c.b.Has(update.changeFloor)
    ensures var sent, f := Arrivals(Commands(site, update, choice), site.localId, c.es.id), update.changeFloor;
            && |sent| == 1 && c.Accepts(Just(sent[0]))
            && c.Obey(Just(sent[0]), now) == if update.changeType == ServedUp
                                             then c.(upLamps := c.upLamps - {f})
                                             else c.(downLamps := c.downLamps - {f})
  {
    hide Arrivals, Commands, MeantFor, Car.Obey, Bounds.Has;
    var off := Command(if update.changeType == ServedUp then TurnOffLightUp else TurnOffLightDown, site.localId,
                       update.changeFloor);
    ServedSends(site, update, choice);
    CommandsReachTheirTargets([off], site.localId, c.es.id);
    MeantForOne(off, site.localId, c.es.id);
    SwitchedOff(c, update.changeType == ServedUp, site.localId, update.changeFloor, now);
  }

  lemma ServedSends(site: Site, update: StateChange, choice: int)
    requires update.changeType == ServedUp || update.changeType == ServedDown
    ensures Commands(site, update, choice)
         == [Command(if update.changeType == ServedUp then TurnOffLightUp else TurnOffLightDown, site.localId,
                     update.changeFloor)]
  {
  }

  lemma SwitchedOff(c: Car, up: bool, target: int, floor: int, now: int)
    ensures c.Obey(Just(Command(if up then TurnOffLightUp else TurnOffLightDown, target, floor)), now)
         == if up then c.(upLamps := c.upLamps - {floor}) else c.(downLamps := c.downLamps - {floor})
  {
  }

  /** When an elevator drops a call, also one that came in the same iteration, it sends the report that the
      announced request of the call waits for. */
  lemma DropIsSeen(c: Car, i: Inputs, kind: ButtonType, r: Request) returns (k: nat)
    requires kind != TargetFloor && Safe(c) && ValidInputs(c.b, i) && c.Iterate(i).Continue?
    requires Dropped(c, i, c.Iterate(i).car, kind, r.command.floor)
    requires r.command == CommandFor(Button(kind, r.command.floor), c.es.id)
    ensures var d := c.Iterate(i).car;
            |c.sent| <= k < |d.sent| && Serves(d.sent[k], r)
  {
    hide Safe, Reports, Dropped, Car.Iterate;
    DroppedIsReported(c, i, kind, r.command.floor);
    IterateAppends(c, i);
    k := OneAdded(c.sent, c.Iterate(i).car.sent, if kind == CallUp then ServedUp else ServedDown, r.command.floor);
  }
}
