/**
 The life of the hall calls that one site schedules: pressed, given to an elevator, acknowledged, served,
 and resent or given to another elevator whenever an answer is late. The queue is the one that the real,
 lazily repaired queue stands for (see RequestViews).
*/
module SchedulerCalls {
  import opened ElevatorTypes
  import opened Requests
  import opened RequestViews
  import opened SchedulerChoice

  datatype Site = Site(localId: int, bounds: Bounds)

  /** A call for which the search found no elevator, with what was known at that time. */
  datatype Loss = Loss(call: nat, states: map<int, ElevatorState>, now: int)

  /** The log, the buttons pressed, the requests finished and the calls lost record the past; a call's number
      is the position of its press. `hand` is the request that the waiting thread has taken out. */
  datatype Calls = Calls(queue: seq<Request>, hand: Maybe<Request>, states: map<int, ElevatorState>,
                         log: seq<StateChange>, pressed: seq<Button>, finished: seq<Request>, lost: seq<Loss>)

  /** `choice` is the elevator chosen where one is needed, NO_ID if the search fails. */
  datatype Action =
    | Process(update: StateChange, now: int, choice: int)
    | Take(i: nat, now: int)
    | Resend(now: int, choice: int)

  const NO_CALLS := Calls([], Nothing, map[], [], [], [], [])

  // ---- what reports ask for

  /** Each site schedules the calls of its own hardware. */
  function Pressed(site: Site, update: StateChange): Maybe<Button> {
    if update.state.id != site.localId then Nothing
    else match update.changeType
      case ButtonUpPressed => Just(Button(CallUp, update.changeFloor))
      case ButtonDownPressed => Just(Button(CallDown, update.changeFloor))
      case _ => Nothing
  }

  function Acknowledges(update: StateChange): Maybe<int> {
    match update.changeType
    case ServedUp => Just(0)
    case ServedDown => Just(0)
    case GoingToServeUp => Just(SERVICE)
    case GoingToServeDown => Just(SERVICE)
    case _ => Nothing
  }

  function CommandFor(b: Button, target: int): Command {
    Command(if b.kind == CallUp then CallToFloorAndGoUp else CallToFloorAndGoDown, target, b.floor)
  }

  function ButtonOf(c: Command): Button {
    Button(if c.commandType == CallToFloorAndGoUp then CallUp else CallDown, c.floor)
  }

  // ---- the steps

  predicate ChoiceOk(states: map<int, ElevatorState>, b: Button, site: Site, now: int, choice: int) {
    if choice == NO_ID then NoneToChoose(states, b.kind, b.floor, now, site.bounds)
    else Optimal(states, choice, b.kind, b.floor, now, site.bounds)
  }

  /** A request is given to another elevator when its own has not answered for the fourth time, or has
      answered and not served the call in time. */
  predicate Reassigns(r: Request) {
    r.repeated + 1 > 3 || r.kind == NotDone
  }

  predicate Enabled(site: Site, s: Calls, act: Action) {
    match act
    case Process(update, now, choice) =>
      && update.state.id != NO_ID
      && (Pressed(site, update).Just? ==>
            ChoiceOk(s.states[update.state.id := update.state], Pressed(site, update).value, site, now, choice))
    case Take(i, now) =>
      && s.hand == Nothing && i < |s.queue| && s.queue[i].deadline <= now
      && forall r :: r in s.queue ==> s.queue[i].deadline <= r.deadline
    case Resend(now, choice) =>
      && s.hand.Just?
      && (Reassigns(s.hand.value) ==> ChoiceOk(s.states, ButtonOf(s.hand.value.command), site, now, choice))
  }

  /** The requests that a report ends. */
  function Ended(r: Request, a: Ack): seq<Request> {
    if Progressed(r, a) == [] then [r] else []
  }

  function Ending(a: Ack): Request -> seq<Request> {
    (r: Request) => Ended(r, a)
  }

  /** What goes back into the queue. */
  function Resent(r: Request, now: int, choice: int, since: nat): Request {
    var again := r.(repeated := r.repeated + 1);
    var given := if Reassigns(r)
                 then again.(command := again.command.(target := choice), kind := NotAcknowledged, since := since)
                 else again;
    given.(deadline := now + given.delta)
  }

  /** A failed search throws, and the loop that made it starts again: the call is lost, the others stay. */
  function After(site: Site, s: Calls, act: Action): Calls
    requires Enabled(site, s, act)
  {
    match act
    case Process(update, now, choice) =>
      var t := s.(states := s.states[update.state.id := update.state], log := s.log + [update]);
      (match Pressed(site, update)
       case Just(b) =>
         if choice == NO_ID then t.(pressed := s.pressed + [b], lost := s.lost + [Loss(|s.pressed|, t.states, now)])
         else t.(queue := s.queue + [NewRequest(CommandFor(b, choice), ANSWER, now, |s.pressed|, |t.log|)],
                 pressed := s.pressed + [b])
       case Nothing =>
         match Acknowledges(update)
         case Just(delta) =>
           var a := Ack(update, delta, now);
           t.(queue := EagerAck(s.queue, a), finished := s.finished + FlatMap(s.queue, Ending(a)))
         case Nothing => t)
    case Take(i, _) =>
      s.(queue := s.queue[..i] + s.queue[i + 1..], hand := Just(s.queue[i]))
    case Resend(now, choice) =>
      if Reassigns(s.hand.value) && choice == NO_ID
      then s.(hand := Nothing, lost := s.lost + [Loss(s.hand.value.call, s.states, now)])
      else s.(queue := s.queue + [Resent(s.hand.value, now, choice, |s.log|)], hand := Nothing)
  }

  predicate Run(site: Site, ss: seq<Calls>, acts: seq<Action>) {
    && |ss| == |acts| + 1 && ss[0] == NO_CALLS
    && forall k :: 0 <= k < |acts| ==> Enabled(site, ss[k], acts[k]) && ss[k + 1] == After(site, ss[k], acts[k])
  }

  // ---- what a request has been through

  /** The elevator of the request has announced this call. */
  predicate Announces(c: StateChange, r: Request) {
    && c.state.id == r.command.target && c.changeFloor == r.command.floor
    && c.changeType == if ButtonOf(r.command).kind == CallUp then GoingToServeUp else GoingToServeDown
  }

  /** The elevator of the request has served this call. */
  predicate Serves(c: StateChange, r: Request) {
    && c.state.id == r.command.target && c.changeFloor == r.command.floor
    && c.changeType == if ButtonOf(r.command).kind == CallUp then ServedUp else ServedDown
  }

  predicate ForCall(r: Request, pressed: seq<Button>) {
    r.call < |pressed| && r.command == CommandFor(pressed[r.call], r.command.target)
  }

  predicate Announced(r: Request, log: seq<StateChange>) {
    exists i :: r.since <= i < |log| && Announces(log[i], r)
  }

  predicate Served(r: Request, log: seq<StateChange>) {
    exists i, j :: r.since <= i < j < |log| && Announces(log[i], r) && Serves(log[j], r)
  }

  predicate Pending(r: Request, log: seq<StateChange>, pressed: seq<Button>) {
    && ForCall(r, pressed) && r.kind != Done && r.tweaked == Nothing && r.since <= |log|
    && (r.kind == NotDone ==> Announced(r, log))
  }

  // ---- counting

  function Numbers(c: seq<Request>): multiset<nat> {
    if c == [] then multiset{} else Numbers(c[..|c| - 1]) + multiset{c[|c| - 1].call}
  }

  function HandNumbers(h: Maybe<Request>): multiset<nat> {
    if h.Just? then multiset{h.value.call} else multiset{}
  }

  function LostNumbers(lost: seq<Loss>): multiset<nat> {
    if lost == [] then multiset{} else LostNumbers(lost[..|lost| - 1]) + multiset{lost[|lost| - 1].call}
  }

  function AllNumbers(n: nat): (m: multiset<nat>)
    ensures forall i: nat :: m[i] == if i < n then 1 else 0
  {
    if n == 0 then multiset{} else AllNumbers(n - 1) + multiset{n - 1}
  }

  lemma {:induction false} NumbersConcat(c: seq<Request>, d: seq<Request>)
    ensures Numbers(c + d) == Numbers(c) + Numbers(d)
  {
    if d == [] {
      assert c + d == c;
    } else {
      var n := |d| - 1;
      assert (c + d)[..|c + d| - 1] == c + d[..n];
      NumbersConcat(c, d[..n]);
    }
  }

  lemma NumbersOne(r: Request)
    ensures Numbers([r]) == multiset{r.call}
  {
    assert [r][..0] == [];
  }

  lemma NumbersThree(p: seq<Request>, x: seq<Request>, q: seq<Request>)
    ensures Numbers(p + x + q) == Numbers(p + q) + Numbers(x)
  {
    hide Numbers;
    NumbersConcat(p + x, q);
    NumbersConcat(p, x);
    NumbersConcat(p, q);
  }

  lemma NumbersTaken(c: seq<Request>, i: nat)
    requires i < |c|
    ensures Numbers(c) == Numbers(c[..i] + c[i + 1..]) + multiset{c[i].call}
  {
    hide Numbers;
    var p, x, q := c[..i], [c[i]], c[i + 1..];
    assert c == p + x + q;
    NumbersThree(p, x, q);
    NumbersOne(c[i]);
  }

  lemma NumbersPart(r: Request, a: Ack)
    ensures Numbers(Progressed(r, a)) + Numbers(Ended(r, a)) == multiset{r.call}
  {
    if Progressed(r, a) == [] {
      NumbersOne(r);
    } else {
      NumbersOne(Progressed(r, a)[0]);
    }
  }

  /** A report moves requests from the queue to the finished ones, and loses none. */
  lemma {:induction false} NumbersAcked(c: seq<Request>, a: Ack)
    ensures Numbers(c) == Numbers(EagerAck(c, a)) + Numbers(FlatMap(c, Ending(a)))
  {
    if c != [] {
      var n := |c| - 1;
      NumbersAcked(c[..n], a);
      assert EagerAck(c, a) == EagerAck(c[..n], a) + Progressed(c[n], a);
      assert FlatMap(c, Ending(a)) == FlatMap(c[..n], Ending(a)) + Ended(c[n], a);
      assert Numbers(c) == Numbers(c[..n]) + multiset{c[n].call};
      hide FlatMap, EagerAck, Progressed, Ended, Numbers;
      NumbersConcat(EagerAck(c[..n], a), Progressed(c[n], a));
      NumbersConcat(FlatMap(c[..n], Ending(a)), Ended(c[n], a));
      NumbersPart(c[n], a);
    }
  }

  // ---- the invariant

  predicate Tracked(s: Calls) {
    Numbers(s.queue) + HandNumbers(s.hand) + Numbers(s.finished) + LostNumbers(s.lost) == AllNumbers(|s.pressed|)
  }

  /** Each lost call had a search that found nobody. */
  predicate AllLost(site: Site, lost: seq<Loss>, pressed: seq<Button>) {
    forall l :: l in lost ==>
      && l.call < |pressed|
      && NoneToChoose(l.states, pressed[l.call].kind, pressed[l.call].floor, l.now, site.bounds)
  }

  predicate AllPending(c: seq<Request>, log: seq<StateChange>, pressed: seq<Button>) {
    forall r :: r in c ==> Pending(r, log, pressed)
  }

  predicate AllServed(c: seq<Request>, log: seq<StateChange>, pressed: seq<Button>) {
    forall r :: r in c ==> ForCall(r, pressed) && Served(r, log)
  }

  predicate Inv(site: Site, s: Calls) {
    && Tracked(s)
    && HallButtons(s.pressed)
    && AllLost(site, s.lost, s.pressed)
    && AllPending(s.queue, s.log, s.pressed)
    && (s.hand.Just? ==> Pending(s.hand.value, s.log, s.pressed))
    && AllServed(s.finished, s.log, s.pressed)
  }

  /** Only hall buttons are scheduled. */
  predicate HallButtons(pressed: seq<Button>) {
    forall n :: 0 <= n < |pressed| ==> pressed[n].kind != TargetFloor
  }

  /** The past stays the past. */
  lemma PendingLater(r: Request, log: seq<StateChange>, pressed: seq<Button>,
                     log': seq<StateChange>, pressed': seq<Button>)
    requires Pending(r, log, pressed) && log <= log' && pressed <= pressed'
    ensures Pending(r, log', pressed')
  {
    if r.kind == NotDone {
      var i :| r.since <= i < |log| && Announces(log[i], r);
      assert Announces(log'[i], r);
    }
  }

  lemma ServedLater(r: Request, log: seq<StateChange>, log': seq<StateChange>)
    requires Served(r, log) && log <= log'
    ensures Served(r, log')
  {
    var i, j :| r.since <= i < j < |log| && Announces(log[i], r) && Serves(log[j], r);
    assert Announces(log'[i], r) && Serves(log'[j], r);
  }

  lemma InvLater(site: Site, s: Calls, log: seq<StateChange>, pressed: seq<Button>)
    requires Inv(site, s) && s.log <= log && s.pressed <= pressed
    ensures AllPending(s.queue, log, pressed) && AllServed(s.finished, log, pressed)
    ensures s.hand.Just? ==> Pending(s.hand.value, log, pressed)
  {
    forall r | r in s.queue || s.hand == Just(r)
      ensures Pending(r, log, pressed)
    {
      PendingLater(r, s.log, s.pressed, log, pressed);
    }
    forall r | r in s.finished
      ensures Served(r, log)
    {
      ServedLater(r, s.log, log);
    }
  }

  /** A report that answers a request is an announcement or a service of its call by its elevator. */
  lemma AnswerMeans(r: Request, update: StateChange, pressed: seq<Button>)
    requires ForCall(r, pressed) && r.kind != Done && r.AnsweredBy(update)
    ensures r.kind == NotAcknowledged ==> Announces(update, r)
    ensures r.kind == NotDone ==> Serves(update, r)
  {
  }

  lemma ProgressedPending(r: Request, x: Request, a: Ack, log: seq<StateChange>, pressed: seq<Button>)
    requires Pending(r, log, pressed) && x in Progressed(r, a)
    ensures Pending(x, log + [a.change], pressed)
  {
    if r.AnsweredBy(a.change) {
      AnswerMeans(r, a.change, pressed);
      assert (log + [a.change])[|log|] == a.change;
      assert Announces(a.change, x);
    } else {
      PendingLater(r, log, pressed, log + [a.change], pressed);
    }
  }

  lemma EndedServed(r: Request, a: Ack, log: seq<StateChange>, pressed: seq<Button>)
    requires Pending(r, log, pressed) && Progressed(r, a) == []
    ensures Served(r, log + [a.change])
  {
    AnswerMeans(r, a.change, pressed);
    var i :| r.since <= i < |log| && Announces(log[i], r);
    var log' := log + [a.change];
    assert Announces(log'[i], r) && Serves(log'[|log|], r);
  }

  lemma AckedPending(c: seq<Request>, a: Ack, log: seq<StateChange>, pressed: seq<Button>)
    requires AllPending(c, log, pressed)
    ensures AllPending(EagerAck(c, a), log + [a.change], pressed)
    ensures AllServed(FlatMap(c, Ending(a)), log + [a.change], pressed)
  {
    forall x | x in EagerAck(c, a)
      ensures Pending(x, log + [a.change], pressed)
    {
      FlatMapMember(c, Progress(a), x);
      var i :| 0 <= i < |c| && x in Progressed(c[i], a);
      ProgressedPending(c[i], x, a, log, pressed);
    }
    forall x | x in FlatMap(c, Ending(a))
      ensures ForCall(x, pressed) && Served(x, log + [a.change])
    {
      FlatMapMember(c, Ending(a), x);
      var i :| 0 <= i < |c| && x in Ended(c[i], a);
      EndedServed(c[i], a, log, pressed);
    }
  }

  lemma AckInv(site: Site, s: Calls, act: Action)
    requires Inv(site, s) && Enabled(site, s, act)
    requires act.Process? && Pressed(site, act.update) == Nothing && Acknowledges(act.update).Just?
    ensures Inv(site, After(site, s, act))
  {
    AckIs(site, s, act);
    hide Pressed, Acknowledges, EagerAck, FlatMap, After, Enabled, Pending, Served, ForCall, Numbers, HandNumbers,
         LostNumbers, AllNumbers, AllLost, HallButtons;
    var a := Ack(act.update, Acknowledges(act.update).value, act.now);
    var s', f := After(site, s, act), FlatMap(s.queue, Ending(a));
    AckedPending(s.queue, a, s.log, s.pressed);
    InvLater(site, s, s'.log, s'.pressed);
    assert AllServed(s'.finished, s'.log, s'.pressed);
    NumbersAcked(s.queue, a);
    NumbersConcat(s.finished, f);
    MovedNumbers(Numbers(s.queue), Numbers(EagerAck(s.queue, a)), Numbers(f), HandNumbers(s.hand),
                 Numbers(s.finished), LostNumbers(s.lost));
  }

  lemma MovedNumbers(queue: multiset<nat>, kept: multiset<nat>, ended: multiset<nat>, hand: multiset<nat>,
                     finished: multiset<nat>, lost: multiset<nat>)
    requires queue == kept + ended
    ensures kept + hand + (finished + ended) + lost == queue + hand + finished + lost
  {
  }

  lemma AckIs(site: Site, s: Calls, act: Action)
    requires Enabled(site, s, act) && act.Process? && Pressed(site, act.update) == Nothing
    requires Acknowledges(act.update).Just?
    ensures var a := Ack(act.update, Acknowledges(act.update).value, act.now);
            After(site, s, act) == s.(states := s.states[act.update.state.id := act.update.state],
                                      log := s.log + [act.update], queue := EagerAck(s.queue, a),
                                      finished := s.finished + FlatMap(s.queue, Ending(a)))
  {
    hide Pressed, Acknowledges, EagerAck, FlatMap, Enabled;
  }

  lemma PressInv(site: Site, s: Calls, act: Action)
    requires Inv(site, s) && Enabled(site, s, act) && act.Process?
    requires Pressed(site, act.update).Just? || Acknowledges(act.update) == Nothing
    ensures Inv(site, After(site, s, act))
  {
    var s' := After(site, s, act);
    InvLater(site, s, s'.log, s'.pressed);
    match Pressed(site, act.update)
    case Nothing =>
      hide Pending, Served, ForCall, Numbers, AllNumbers, LostNumbers, NoneToChoose, Enabled;
    case Just(b) =>
      NextNumber(|s.pressed|);
      if act.choice == NO_ID {
        LostInv(site, s, s', Loss(|s.pressed|, s'.states, act.now), b);
      } else {
        AddedInv(site, s, s', NewRequest(CommandFor(b, act.choice), ANSWER, act.now, |s.pressed|, |s'.log|), b);
      }
  }

  /** One more call, given out. */
  lemma AddedInv(site: Site, s: Calls, s': Calls, r: Request, b: Button)
    requires Inv(site, s) && s.log <= s'.log && s'.pressed == s.pressed + [b] && s'.hand == s.hand
    requires s'.finished == s.finished && s'.queue == s.queue + [r] && s'.lost == s.lost
    requires r.call == |s.pressed| && Pending(r, s'.log, s'.pressed) && b.kind != TargetFloor
    ensures Inv(site, s')
  {
    assert Tracked(s') by {
      NextNumber(|s.pressed|);
      NumbersOne(r);
      hide Inv, Pending, Served, ForCall, AllPending, AllServed, AllLost, Numbers, AllNumbers, HandNumbers, LostNumbers;
      NumbersConcat(s.queue, [r]);
      OneMoreNumber(Numbers(s.queue), HandNumbers(s.hand), Numbers(s.finished), LostNumbers(s.lost),
                    AllNumbers(|s.pressed|), r.call);
    }
    hide Tracked, Pending, Served, ForCall, NoneToChoose;
    InvLater(site, s, s'.log, s'.pressed);
  }

  /** One more call, lost at once. */
  lemma LostInv(site: Site, s: Calls, s': Calls, l: Loss, b: Button)
    requires Inv(site, s) && s.log <= s'.log && s'.pressed == s.pressed + [b] && s'.hand == s.hand
    requires s'.finished == s.finished && s'.queue == s.queue && s'.lost == s.lost + [l]
    requires l.call == |s.pressed| && b.kind != TargetFloor
    requires NoneToChoose(l.states, b.kind, b.floor, l.now, site.bounds)
    ensures Inv(site, s')
  {
    assert Tracked(s') by {
      NextNumber(|s.pressed|);
      LostOne(s.lost, l);
      hide Inv, Pending, Served, ForCall, AllPending, AllServed, AllLost, Numbers, AllNumbers, HandNumbers, LostNumbers;
      OneMoreNumber(LostNumbers(s.lost), HandNumbers(s.hand), Numbers(s.finished), Numbers(s.queue),
                    AllNumbers(|s.pressed|), l.call);
    }
    hide Tracked, Pending, Served, ForCall, NoneToChoose;
    InvLater(site, s, s'.log, s'.pressed);
  }

  lemma LostOne(lost: seq<Loss>, l: Loss)
    ensures LostNumbers(lost + [l]) == LostNumbers(lost) + multiset{l.call}
  {
    assert (lost + [l])[..|lost|] == lost;
  }

  lemma NextNumber(n: nat)
    ensures AllNumbers(n + 1) == AllNumbers(n) + multiset{n}
  {
  }

  lemma OneMoreNumber(a: multiset<nat>, b: multiset<nat>, c: multiset<nat>, d: multiset<nat>, all: multiset<nat>,
                      x: nat)
    ensures a + b + c + d == all ==> (a + multiset{x}) + b + c + d == all + multiset{x}
    ensures d + b + c + a == all ==> d + b + c + (a + multiset{x}) == all + multiset{x}
  {
  }

  lemma TakeInv(site: Site, s: Calls, act: Action)
    requires Inv(site, s) && Enabled(site, s, act) && act.Take?
    ensures Inv(site, After(site, s, act))
  {
    hide Pending, Served, ForCall, Numbers, LostNumbers, AllNumbers, AllLost, AllServed, HallButtons;
    var s', r := After(site, s, act), s.queue[act.i];
    assert s' == s.(queue := s.queue[..act.i] + s.queue[act.i + 1..], hand := Just(r)) && s.hand == Nothing;
    hide After, Enabled;
    NumbersTaken(s.queue, act.i);
    assert r in s.queue && forall x :: x in s'.queue ==> x in s.queue;
  }

  lemma ResendInv(site: Site, s: Calls, act: Action)
    requires Inv(site, s) && Enabled(site, s, act) && act.Resend?
    ensures Inv(site, After(site, s, act))
  {
    var s', h := After(site, s, act), s.hand.value;
    if Reassigns(h) && act.choice == NO_ID {
      var l := Loss(h.call, s.states, act.now);
      assert s' == s.(hand := Nothing, lost := s.lost + [l]);
      assert ButtonOf(h.command) == s.pressed[h.call];
      hide After, Enabled;
      HandLost(site, s, s', l);
    } else {
      var r := Resent(h, act.now, act.choice, |s.log|);
      assert s' == s.(queue := s.queue + [r], hand := Nothing);
      ResentPending(h, act.now, act.choice, s.log, s.pressed);
      hide After, Enabled;
      HandBack(site, s, s', r);
    }
  }

  lemma HandLost(site: Site, s: Calls, s': Calls, l: Loss)
    requires Inv(site, s) && s.hand.Just? && s.hand.value.call == l.call
    requires s' == s.(hand := Nothing, lost := s.lost + [l])
    requires l.call < |s.pressed|
    requires NoneToChoose(l.states, s.pressed[l.call].kind, s.pressed[l.call].floor, l.now, site.bounds)
    ensures Inv(site, s')
  {
    LostOne(s.lost, l);
    hide Pending, Served, ForCall, Numbers, LostNumbers, AllNumbers, NoneToChoose;
  }

  lemma HandBack(site: Site, s: Calls, s': Calls, r: Request)
    requires Inv(site, s) && s.hand.Just? && s' == s.(queue := s.queue + [r], hand := Nothing)
    requires r.call == s.hand.value.call && Pending(r, s.log, s.pressed)
    ensures Inv(site, s')
  {
    NumbersOne(r);
    hide Pending, Served, ForCall, Numbers, LostNumbers, AllNumbers, AllLost, AllServed;
    NumbersConcat(s.queue, [r]);
  }

  lemma ResentPending(r: Request, now: int, choice: int, log: seq<StateChange>, pressed: seq<Button>)
    requires Pending(r, log, pressed)
    ensures Pending(Resent(r, now, choice, |log|), log, pressed)
    ensures Resent(r, now, choice, |log|).call == r.call
  {
  }

  lemma StepInv(site: Site, s: Calls, act: Action)
    requires Inv(site, s) && Enabled(site, s, act)
    ensures Inv(site, After(site, s, act))
  {
    match act
    case Process(update, _, _) =>
      if Pressed(site, update) == Nothing && Acknowledges(update).Just? {
        AckInv(site, s, act);
      } else {
        PressInv(site, s, act);
      }
    case Take(_, _) => TakeInv(site, s, act);
    case Resend(_, _) => ResendInv(site, s, act);
  }

  lemma {:induction false} RunInv(site: Site, ss: seq<Calls>, acts: seq<Action>, k: nat)
    requires Run(site, ss, acts) && k < |ss|
    ensures Inv(site, ss[k])
  {
    hide Inv, Enabled, After;
    if k == 0 {
      NoCallsInv(site);
    } else {
      RunInv(site, ss, acts, k - 1);
      StepInv(site, ss[k - 1], acts[k - 1]);
    }
  }

  lemma NoCallsInv(site: Site)
    ensures Inv(site, NO_CALLS)
  {
  }

  // ---- the results

  /** No call is doubled, and none disappears: each press of a hall button of this site is at every moment in
      exactly one place, in the queue, in the hand of the waiting thread, among the finished calls or among
      the lost ones. */
  lemma CallsAreTracked(site: Site, ss: seq<Calls>, acts: seq<Action>, k: nat, n: nat)
    requires Run(site, ss, acts) && k < |ss| && n < |ss[k].pressed|
    ensures Numbers(ss[k].queue)[n] + HandNumbers(ss[k].hand)[n] + Numbers(ss[k].finished)[n]
            + LostNumbers(ss[k].lost)[n] == 1
  {
    RunInv(site, ss, acts, k);
    hide Numbers, HandNumbers, LostNumbers;
    assert AllNumbers(|ss[k].pressed|)[n] == 1;
  }

  /** A search for an elevator for call n finds nobody. */
  predicate SearchFails(site: Site, s: Calls, act: Action, n: nat) {
    match act
    case Process(update, _, choice) => Pressed(site, update).Just? && choice == NO_ID && n == |s.pressed|
    case Take(_, _) => false
    case Resend(_, choice) => s.hand.Just? && Reassigns(s.hand.value) && choice == NO_ID && n == s.hand.value.call
  }

  /** A call is lost if and only if a search made for it found nobody. */
  lemma {:induction false} LostIffSearchFailed(site: Site, ss: seq<Calls>, acts: seq<Action>, k: nat, n: nat)
    requires Run(site, ss, acts) && k < |ss|
    ensures (exists l :: l in ss[k].lost && l.call == n)
       <==> exists j :: 0 <= j < k && SearchFails(site, ss[j], acts[j], n)
  {
    if k > 0 {
      LostIffSearchFailed(site, ss, acts, k - 1, n);
      LostStep(site, ss[k - 1], acts[k - 1], n);
      assert ss[k] == After(site, ss[k - 1], acts[k - 1]);
      hide After, Enabled, SearchFails;
    }
  }

  lemma LostStep(site: Site, s: Calls, act: Action, n: nat)
    requires Enabled(site, s, act)
    ensures (exists l :: l in After(site, s, act).lost && l.call == n)
       <==> (exists l :: l in s.lost && l.call == n) || SearchFails(site, s, act, n)
  {
    var s' := After(site, s, act);
    if SearchFails(site, s, act, n) {
      assert s'.lost == s.lost + [s'.lost[|s.lost|]] && s'.lost[|s.lost|] in s'.lost;
    }
    assert forall l :: l in s'.lost <==> l in s.lost || (|s'.lost| > |s.lost| && l == s'.lost[|s.lost|]);
  }

  /** At the time of such a search no known elevator had reported lately. */
  lemma LossMeansSilence(site: Site, ss: seq<Calls>, acts: seq<Action>, k: nat, l: Loss)
    requires Run(site, ss, acts) && k < |ss| && l in ss[k].lost
    requires 0 < site.bounds.max - site.bounds.min < 64
    ensures l.call < |ss[k].pressed|
    ensures site.bounds.Has(ss[k].pressed[l.call].floor)
            && (forall e :: e in l.states ==> site.bounds.Has(l.states[e].lastFloor)) ==>
              forall e :: e in l.states ==> !Fresh(l.states[e], l.now)
  {
    RunInv(site, ss, acts, k);
    var b := ss[k].pressed[l.call];
    if site.bounds.Has(b.floor) && forall e :: e in l.states ==> site.bounds.Has(l.states[e].lastFloor) {
      FreshMeansCandidate(l.states, b.kind, b.floor, l.now, site.bounds);
    }
  }

  /** A finished call was announced and then reported as served by the elevator it belonged to last, both
      after it was given to that elevator, and for the floor and direction of its press. */
  lemma FinishedMeansServed(site: Site, ss: seq<Calls>, acts: seq<Action>, k: nat, r: Request)
    requires Run(site, ss, acts) && k < |ss| && r in ss[k].finished
    ensures r.call < |ss[k].pressed| && ButtonOf(r.command) == ss[k].pressed[r.call]
    ensures exists i, j :: r.since <= i < j < |ss[k].log| && Announces(ss[k].log[i], r) && Serves(ss[k].log[j], r)
  {
    RunInv(site, ss, acts, k);
    assert ForCall(r, ss[k].pressed) && Served(r, ss[k].log);
  }

  /** A request sent again and again without an answer; each try has its time and its choice. */
  function AfterTries(r: Request, tries: seq<(int, int)>, since: nat): Request {
    if tries == [] then r
    else
      var n := |tries| - 1;
      Resent(AfterTries(r, tries[..n], since), tries[n].0, tries[n].1, since)
  }

  /** An elevator that has not answered is asked three times more; from then on each try goes to the
      elevator chosen for it. One that has answered and not served the call in time loses it at once. The
      delay stays what it was, also for the next elevator's answer. */
  lemma {:induction false} SilenceIsReassigned(r: Request, tries: seq<(int, int)>, since: nat)
    requires r.kind != Done && r.repeated == 0 && tries != []
    ensures var x, last := AfterTries(r, tries, since), tries[|tries| - 1];
            && x.kind == NotAcknowledged && x.repeated == |tries| && x.call == r.call
            && ButtonOf(x.command) == ButtonOf(r.command)
            && x.delta == r.delta && x.deadline == last.0 + r.delta
            && (r.kind == NotAcknowledged && |tries| <= 3 ==> x.command == r.command && x.since == r.since)
            && (|tries| > 3 ==> x.command.target == last.1 && x.since == since)
            && (r.kind == NotDone && |tries| <= 3 ==> x.command.target == tries[0].1 && x.since == since)
  {
    var n := |tries| - 1;
    if n > 0 {
      SilenceIsReassigned(r, tries[..n], since);
    } else {
      assert AfterTries(r, tries[..n], since) == r;
    }
  }
}
