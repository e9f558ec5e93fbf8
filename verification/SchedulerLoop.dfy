/** The scheduler of one site: its two loops take the steps of SchedulerCalls. */
module SchedulerLoop {
  import opened ElevatorTypes
  import opened GlobalStates
  import opened Requests
  import opened RequestQueues
  import opened RequestViews
  import opened SchedulerCalls
  import opened SchedulerChoice

  // ---- the commands that a report or a resent request sends out

  function LightOn(b: Button): Command {
    Command(if b.kind == CallUp then TurnOnLightUp else TurnOnLightDown, ANY_ID, b.floor)
  }

  /** A press switches the lamp on at every site; the call itself goes to the chosen elevator. A served call
      is switched off here only, each site hearing the report itself. */
  function Commands(site: Site, update: StateChange, choice: int): seq<Command> {
    match update.changeType
    case ButtonUpPressed =>
      [LightOn(Button(CallUp, update.changeFloor))]
      + if update.state.id == site.localId && choice != NO_ID
        then [CommandFor(Button(CallUp, update.changeFloor), choice)] else []
    case ButtonDownPressed =>
      [LightOn(Button(CallDown, update.changeFloor))]
      + if update.state.id == site.localId && choice != NO_ID
        then [CommandFor(Button(CallDown, update.changeFloor), choice)] else []
    case ServedUp => [Command(TurnOffLightUp, site.localId, update.changeFloor)]
    case ServedDown => [Command(TurnOffLightDown, site.localId, update.changeFloor)]
    case _ => []
  }

  function ForLocal(c: Command, localId: int): seq<Command> {
    if c.target == ANY_ID || c.target == localId then [c] else []
  }

  function ForRemote(c: Command, localId: int): seq<Command> {
    if c.target != localId then [c] else []
  }

  function AllForLocal(cs: seq<Command>, localId: int): seq<Command> {
    if cs == [] then [] else AllForLocal(cs[..|cs| - 1], localId) + ForLocal(cs[|cs| - 1], localId)
  }

  function AllForRemote(cs: seq<Command>, localId: int): seq<Command> {
    if cs == [] then [] else AllForRemote(cs[..|cs| - 1], localId) + ForRemote(cs[|cs| - 1], localId)
  }

  /** The commands whose target is this id. */
  function ToTarget(cs: seq<Command>, id: int): seq<Command> {
    if cs == [] then []
    else ToTarget(cs[..|cs| - 1], id) + if cs[|cs| - 1].target == id then [cs[|cs| - 1]] else []
  }

  /** What gets to the elevator at `here` of the commands that `sender` forwards, if the network loses
      nothing: its own local queue, or what a receiver lets through of the others' broadcasts. */
  function Arrivals(cs: seq<Command>, sender: int, here: int): seq<Command> {
    if here == sender then AllForLocal(cs, sender) else ToTarget(AllForRemote(cs, sender), here)
  }

  /** The commands meant for the elevator at `here`. A command for anyone is one for the sender. */
  function MeantFor(cs: seq<Command>, sender: int, here: int): seq<Command> {
    if cs == [] then []
    else
      var last := cs[|cs| - 1];
      MeantFor(cs[..|cs| - 1], sender, here)
      + if last.target == here || (last.target == ANY_ID && here == sender) then [last] else []
  }

  lemma ToTargetSnoc(cs: seq<Command>, more: seq<Command>, id: int)
    requires |more| <= 1
    ensures ToTarget(cs + more, id) == ToTarget(cs, id) + if more != [] && more[0].target == id then more else []
  {
    if more == [] {
      assert cs + more == cs;
    } else {
      assert (cs + more)[..|cs|] == cs;
    }
  }

  /** Every command gets to its target once and in order, one for anyone to the sender's elevator alone, and
      none to an elevator that would refuse it. */
  lemma CommandsReachTheirTargets(cs: seq<Command>, sender: int, here: int)
    requires here != ANY_ID
    ensures Arrivals(cs, sender, here) == MeantFor(cs, sender, here)
    ensures forall c :: c in Arrivals(cs, sender, here) ==> c.target == here || c.target == ANY_ID
  {
    hide Arrivals, MeantFor;
    ArrivalsAreMeant(cs, sender, here);
    MeantForHere(cs, sender, here);
  }

  lemma {:induction false} ArrivalsAreMeant(cs: seq<Command>, sender: int, here: int)
    requires here != ANY_ID
    ensures Arrivals(cs, sender, here) == MeantFor(cs, sender, here)
  {
    if cs != [] {
      var n := |cs| - 1;
      ArrivalsAreMeant(cs[..n], sender, here);
      ToTargetSnoc(AllForRemote(cs[..n], sender), ForRemote(cs[n], sender), here);
      hide ToTarget;
    }
  }

  lemma {:induction false} MeantForHere(cs: seq<Command>, sender: int, here: int)
    ensures forall c :: c in MeantFor(cs, sender, here) ==> c.target == here || c.target == ANY_ID
  {
    if cs != [] {
      MeantForHere(cs[..|cs| - 1], sender, here);
    }
  }

  /** A hall press lights the lamp at each site that processes its report, and sends the call to the chosen
      elevator and no other, from the site of the press alone. */
  lemma PressReachesOneElevator(site: Site, update: StateChange, choice: int, here: int)
    requires update.changeType == ButtonUpPressed || update.changeType == ButtonDownPressed
    requires here != ANY_ID && here != NO_ID && choice != ANY_ID
    ensures var b := Button(if update.changeType == ButtonUpPressed then CallUp else CallDown, update.changeFloor);
            Arrivals(Commands(site, update, choice), site.localId, here)
            == (if here == site.localId then [LightOn(b)] else [])
               + (if update.state.id == site.localId && choice == here then [CommandFor(b, choice)] else [])
  {
    var b := Button(if update.changeType == ButtonUpPressed then CallUp else CallDown, update.changeFloor);
    var cs := Commands(site, update, choice);
    CommandsReachTheirTargets(cs, site.localId, here);
    MeantForOne(LightOn(b), site.localId, here);
    if update.state.id == site.localId && choice != NO_ID {
      assert cs == [LightOn(b)] + [CommandFor(b, choice)];
      assert cs[..1] == [LightOn(b)];
    } else {
      assert cs == [LightOn(b)];
    }
  }

  lemma MeantForOne(c: Command, sender: int, here: int)
    ensures MeantFor([c], sender, here)
         == if c.target == here || (c.target == ANY_ID && here == sender) then [c] else []
  {
    assert [c][..0] == [];
  }

  /** Waiting for a request is the step that takes one: what comes back is one of those due first. */
  lemma WaitIsTake(site: Site, s: Calls, c: seq<Request>, r: Request, now: int) returns (i: nat)
    requires s.hand == Nothing
    requires multiset(s.queue) == multiset(Live(c)) + multiset{r}
    requires r.deadline <= now && forall x :: x in Live(c) ==> r.deadline <= x.deadline
    ensures Enabled(site, s, Take(i, now))
    ensures var t := After(site, s, Take(i, now)); t.hand == Just(r) && Represents(c, t.queue)
  {
    hide Live, Enabled, After, Represents;
    i := FirstDue(s.queue, Live(c), r);
    Removed(s.queue, i);
    TakeEnabled(site, s, i, now);
    RestRepresents(c, s.queue[..i] + s.queue[i + 1..], multiset(s.queue), r);
  }

  lemma FirstDue(queue: seq<Request>, live: seq<Request>, r: Request) returns (i: nat)
    requires multiset(queue) == multiset(live) + multiset{r} && forall x :: x in live ==> r.deadline <= x.deadline
    ensures i < |queue| && queue[i] == r && forall x :: x in queue ==> r.deadline <= x.deadline
  {
    assert r in multiset(queue);
    i :| 0 <= i < |queue| && queue[i] == r;
    forall x | x in queue
      ensures r.deadline <= x.deadline
    {
      assert x in multiset(queue);
      assert x == r || x in multiset(live);
    }
  }

  lemma TakeEnabled(site: Site, s: Calls, i: nat, now: int)
    requires s.hand == Nothing && i < |s.queue| && s.queue[i].deadline <= now
    requires forall x :: x in s.queue ==> s.queue[i].deadline <= x.deadline
    ensures Enabled(site, s, Take(i, now))
    ensures After(site, s, Take(i, now)) == s.(queue := s.queue[..i] + s.queue[i + 1..], hand := Just(s.queue[i]))
  {
  }

  lemma RestRepresents(c: seq<Request>, rest: seq<Request>, all: multiset<Request>, r: Request)
    requires all == multiset(Live(c)) + multiset{r} && multiset(rest) == all - multiset{r}
    ensures Represents(c, rest)
  {
    hide Live;
  }

  // ---- what processing a report does to the calls

  function Heard(s: Calls, update: StateChange): Calls {
    s.(states := s.states[update.state.id := update.state], log := s.log + [update])
  }

  lemma PressIs(site: Site, s: Calls, update: StateChange, now: int, choice: int, b: Button)
    requires update.state.id != NO_ID
    requires (update.changeType == ButtonUpPressed && b == Button(CallUp, update.changeFloor))
          || (update.changeType == ButtonDownPressed && b == Button(CallDown, update.changeFloor))
    requires update.state.id == site.localId ==> ChoiceOk(Heard(s, update).states, b, site, now, choice)
    ensures var mine, t := update.state.id == site.localId, Heard(s, update);
            && Enabled(site, s, Process(update, now, choice))
            && After(site, s, Process(update, now, choice))
               == (if !mine then t
                   else if choice == NO_ID
                   then t.(pressed := s.pressed + [b], lost := s.lost + [Loss(|s.pressed|, t.states, now)])
                   else t.(queue := s.queue + [NewRequest(CommandFor(b, choice), ANSWER, now, |s.pressed|, |t.log|)],
                           pressed := s.pressed + [b]))
            && Commands(site, update, choice)
               == [LightOn(b)] + if mine && choice != NO_ID then [CommandFor(b, choice)] else []
  {
    hide ChoiceOk;
  }

  lemma AnswerIs(site: Site, s: Calls, update: StateChange, now: int, choice: int)
    requires update.state.id != NO_ID && Acknowledges(update).Just?
    ensures Enabled(site, s, Process(update, now, choice))
    ensures var a := Ack(update, Acknowledges(update).value, now);
            var t := After(site, s, Process(update, now, choice));
            t == Heard(s, update).(queue := EagerAck(s.queue, a), finished := t.finished)
  {
    hide EagerAck, ChoiceOk;
  }

  lemma OtherIs(site: Site, s: Calls, update: StateChange, now: int, choice: int)
    requires update.state.id != NO_ID && Acknowledges(update) == Nothing
    requires update.changeType != ButtonUpPressed && update.changeType != ButtonDownPressed
    ensures Enabled(site, s, Process(update, now, choice))
    ensures After(site, s, Process(update, now, choice)) == Heard(s, update)
  {
    hide ChoiceOk;
  }

  class Scheduler {
    const site: Site
    const globalState: GlobalState
    const requests: RequestQueue
    var stateUpdateOut: seq<StateChange>
    var commandsToRemote: seq<Command>
    var commandsToLocal: seq<Command>
    var log: seq<StateChange>
    var pressed: seq<Button>

    ghost predicate Valid(clock: int)
      reads this, globalState, requests
    {
      && globalState.Valid() && NO_ID !in globalState.elevators
      && requests.Valid(clock)
    }

    /** The scheduler is in a state of SchedulerCalls; what its waiting thread holds is not a field of it. */
    ghost predicate Models(s: Calls)
      reads this, globalState, requests
    {
      && s.states == globalState.elevators
      && Represents(requests.queue, s.queue)
      && s.log == log && s.pressed == pressed
    }

    constructor (site: Site, globalState: GlobalState, requests: RequestQueue)
      requires globalState.elevators == map[] && requests.queue == []
      ensures this.site == site && this.globalState == globalState && this.requests == requests
      ensures Models(NO_CALLS)
      ensures stateUpdateOut == [] && commandsToLocal == [] && commandsToRemote == []
    {
      this.site, this.globalState, this.requests := site, globalState, requests;
      stateUpdateOut, commandsToRemote, commandsToLocal, log, pressed := [], [], [], [], [];
    }

    method ForwardToTargets(comm: Command)
      modifies `commandsToLocal, `commandsToRemote
      ensures commandsToLocal == old(commandsToLocal) + ForLocal(comm, site.localId)
      ensures commandsToRemote == old(commandsToRemote) + ForRemote(comm, site.localId)
    {
      if comm.target == ANY_ID || comm.target == site.localId {
        commandsToLocal := commandsToLocal + [comm];
      }
      if comm.target != site.localId {
        commandsToRemote := commandsToRemote + [comm];
      }
    }

    method AddAndForwardRequest(comm: Command, now: int, ghost clock: int, ghost e: seq<Request>)
      requires requests.Valid(clock) && clock <= now && Represents(requests.queue, e)
      modifies `commandsToLocal, `commandsToRemote, requests
      ensures requests.Valid(now)
      ensures Represents(requests.queue, e + [NewRequest(comm, ANSWER, now, |pressed|, |log|)])
      ensures commandsToLocal == old(commandsToLocal) + ForLocal(comm, site.localId)
      ensures commandsToRemote == old(commandsToRemote) + ForRemote(comm, site.localId)
    {
      var r := NewRequest(comm, ANSWER, now, |pressed|, |log|);
      requests.Add(r, now, clock, e);
      ForwardToTargets(comm);
    }

    /** The choice is NO_ID where the source's assertion fails. */
    method HandleButtonPress(updateElId: int, kind: ButtonType, floor: int, now: int,
                             ghost clock: int, ghost e: seq<Request>) returns (minId: int)
      requires Valid(clock) && clock <= now && Represents(requests.queue, e) && kind != TargetFloor
      modifies `commandsToLocal, `commandsToRemote, `pressed, requests
      ensures requests.Valid(now)
      ensures var b := Button(kind, floor);
              var mine := updateElId == site.localId;
              var call := if mine && minId != NO_ID then [CommandFor(b, minId)] else [];
              && (mine ==> ChoiceOk(globalState.elevators, b, site, now, minId))
              && commandsToLocal == old(commandsToLocal) + AllForLocal([LightOn(b)] + call, site.localId)
              && commandsToRemote == old(commandsToRemote) + AllForRemote([LightOn(b)] + call, site.localId)
              && pressed == old(pressed) + (if mine then [b] else [])
              && Represents(requests.queue,
                            if mine && minId != NO_ID
                            then e + [NewRequest(CommandFor(b, minId), ANSWER, now, |old(pressed)|, |log|)] else e)
    {
      ghost var b := Button(kind, floor);
      hide Represents, Optimal, NoneToChoose, UnionOf, Keyed, Heap, AllSound, AllForLocal, AllForRemote;
      var lights := Command(if kind == CallUp then TurnOnLightUp else TurnOnLightDown, ANY_ID, floor);
      ForwardToTargets(lights);
      minId := NO_ID;
      ForwardedOne(lights, site.localId);
      if updateElId == site.localId {
        minId := OptimalElevator(globalState.elevators, kind, floor, now, site.bounds);
        if minId != NO_ID {
          var comm := Command(if kind == CallUp then CallToFloorAndGoUp else CallToFloorAndGoDown, minId, floor);
          AddAndForwardRequest(comm, now, clock, e);
          pressed := pressed + [Button(kind, floor)];
          ForwardedTwo(lights, comm, site.localId);
          return;
        }
        pressed := pressed + [Button(kind, floor)];
      }
      SoundLater(requests.queue, clock, now);
      assert [lights] + [] == [lights];
    }

    /** One report in the first loop. */
    method SchedStep(update: StateChange, now: int, ghost clock: int, ghost s: Calls) returns (choice: int)
      requires Valid(clock) && clock <= now && Models(s) && update.state.id != NO_ID
      modifies this, globalState, requests
      ensures var act := Process(update, now, choice);
              Enabled(site, s, act) && Models(After(site, s, act))
      ensures Valid(now)
      ensures stateUpdateOut == old(stateUpdateOut) + if update.state.id == site.localId then [update] else []
      ensures commandsToLocal == old(commandsToLocal) + AllForLocal(Commands(site, update, choice), site.localId)
      ensures commandsToRemote == old(commandsToRemote) + AllForRemote(Commands(site, update, choice), site.localId)
    {
      hide Represents, ChoiceOk, UnionOf, Keyed, Heap, AllSound, AllForLocal, AllForRemote, Enabled, After, EagerAck,
           Pressed;
      choice := NO_ID;
      globalState.Update(update.state);
      log := log + [update];
      if update.state.id == site.localId {
        stateUpdateOut := stateUpdateOut + [update];
      }
      NothingForwarded(site.localId);
      match update.changeType {
      case ButtonUpPressed =>
        choice := HandleButtonPress(update.state.id, CallUp, update.changeFloor, now, clock, s.queue);
        PressIs(site, s, update, now, choice, Button(CallUp, update.changeFloor));
      case ButtonDownPressed =>
        choice := HandleButtonPress(update.state.id, CallDown, update.changeFloor, now, clock, s.queue);
        PressIs(site, s, update, now, choice, Button(CallDown, update.changeFloor));
      case ServedDown =>
        ForwardToTargets(Command(TurnOffLightDown, site.localId, update.changeFloor));
        ForwardedOne(Command(TurnOffLightDown, site.localId, update.changeFloor), site.localId);
        requests.Acknowledge(update, 0, now, clock, s.queue);
        AnswerIs(site, s, update, now, choice);
      case ServedUp =>
        ForwardToTargets(Command(TurnOffLightUp, site.localId, update.changeFloor));
        ForwardedOne(Command(TurnOffLightUp, site.localId, update.changeFloor), site.localId);
        requests.Acknowledge(update, 0, now, clock, s.queue);
        AnswerIs(site, s, update, now, choice);
      case GoingToServeUp =>
        requests.Acknowledge(update, 30 * 1000, now, clock, s.queue);
        AnswerIs(site, s, update, now, choice);
      case GoingToServeDown =>
        requests.Acknowledge(update, 30 * 1000, now, clock, s.queue);
        AnswerIs(site, s, update, now, choice);
      case _ =>
        SoundLater(requests.queue, clock, now);
        OtherIs(site, s, update, now, choice);
      }
    }

    /** The second loop's answer to a request that has come due. */
    method ResendRequest(request: Request, now: int, ghost clock: int, ghost s: Calls) returns (choice: int)
      requires Valid(clock) && clock <= now && Models(s) && s.hand == Just(request)
      requires request.kind != Done && request.tweaked == Nothing
      requires request.delta == ANSWER || request.delta == SERVICE
      modifies `commandsToLocal, `commandsToRemote, requests
      ensures var act := Resend(now, choice);
              Enabled(site, s, act) && Models(After(site, s, act))
      ensures Valid(now)
      ensures !(Reassigns(request) && choice == NO_ID) ==>
                var sent := Resent(request, now, choice, |log|).command;
                && commandsToLocal == old(commandsToLocal) + ForLocal(sent, site.localId)
                && commandsToRemote == old(commandsToRemote) + ForRemote(sent, site.localId)
    {
      hide Represents, Optimal, NoneToChoose, UnionOf, Keyed, Heap, AllSound;
      choice := NO_ID;
      var r := request;
      r := r.(repeated := r.repeated + 1);
      if r.repeated > 3 || r.kind == NotDone {
        choice := OptimalElevator(globalState.elevators,
                                  if r.command.commandType == CallToFloorAndGoUp then CallUp else CallDown,
                                  r.command.floor, now, site.bounds);
        if choice == NO_ID {
          SoundLater(requests.queue, clock, now);
          return;
        }
        r := r.(command := r.command.(target := choice), kind := NotAcknowledged, since := |log|);
      }
      r := r.(deadline := now + r.delta);
      requests.Add(r, now, clock, s.queue);
      ForwardToTargets(r.command);
    }
  }

  lemma NothingForwarded(localId: int)
    ensures AllForLocal([], localId) == AllForRemote([], localId) == []
  {
  }

  lemma ForwardedOne(c: Command, localId: int)
    ensures AllForLocal([c], localId) == ForLocal(c, localId)
    ensures AllForRemote([c], localId) == ForRemote(c, localId)
  {
    assert [c][..0] == [];
  }

  lemma ForwardedTwo(c: Command, d: Command, localId: int)
    ensures AllForLocal([c] + [d], localId) == ForLocal(c, localId) + ForLocal(d, localId)
    ensures AllForRemote([c] + [d], localId) == ForRemote(c, localId) + ForRemote(d, localId)
  {
    assert ([c] + [d])[..1] == [c];
    ForwardedOne(c, localId);
  }
}
