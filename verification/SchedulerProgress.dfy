/**
 What the reports of elevators do to the calls of a site: which report makes a call wait for its service, which
 one finishes it, and that no other report touches it.
*/
module SchedulerProgress {
  import opened ElevatorTypes
  import opened Requests
  import opened RequestViews
  import opened SchedulerCalls
  import opened SchedulerChoice

  // ---- one call, one entry

  lemma {:induction false} CountedIn(c: seq<Request>, y: Request)
    requires y in c
    ensures Numbers(c)[y.call] >= 1
  {
    var n := |c| - 1;
    if y != c[n] {
      CountedIn(c[..n], y);
    }
  }

  lemma {:induction false} UniqueCall(c: seq<Request>, y: Request, z: Request)
    requires y in c && z in c && y.call == z.call && Numbers(c)[y.call] <= 1
    ensures y == z
  {
    var n := |c| - 1;
    if y in c[..n] && z in c[..n] {
      UniqueCall(c[..n], y, z);
    } else if y in c[..n] {
      CountedIn(c[..n], y);
    } else if z in c[..n] {
      CountedIn(c[..n], z);
    }
  }

  /** At most one entry for each call, wherever it is. */
  lemma OnePlace(site: Site, s: Calls, n: nat)
    requires Inv(site, s)
    ensures Numbers(s.queue)[n] + HandNumbers(s.hand)[n] + Numbers(s.finished)[n] + LostNumbers(s.lost)[n] <= 1
  {
    hide Numbers, HandNumbers, LostNumbers, AllPending, AllServed, AllLost, Pending, HallButtons;
    assert AllNumbers(|s.pressed|)[n] <= 1;
  }

  // ---- one press

  /** A press reported from the own site becomes the last request of the queue, to be answered within a tenth of
      a second by the elevator chosen for it, or is lost if none is to be chosen; a press reported from another
      site changes nothing but what is known of the elevators. */
  lemma PressIsQueued(site: Site, s: Calls, act: Action)
    requires Enabled(site, s, act) && act.Process?
    requires act.update.changeType == ButtonUpPressed || act.update.changeType == ButtonDownPressed
    ensures var t, u := After(site, s, act), act.update;
            var b := Button(if u.changeType == ButtonUpPressed then CallUp else CallDown, u.changeFloor);
            && t.states == s.states[u.state.id := u.state] && t.log == s.log + [u]
            && t.hand == s.hand && t.finished == s.finished
            && if u.state.id != site.localId then t.queue == s.queue && t.pressed == s.pressed && t.lost == s.lost
               else
                 && t.pressed == s.pressed + [b]
                 && if act.choice == NO_ID
                    then NoneToChoose(t.states, b.kind, b.floor, act.now, site.bounds) && t.queue == s.queue
                         && t.lost == s.lost + [Loss(|s.pressed|, t.states, act.now)]
                    else Optimal(t.states, act.choice, b.kind, b.floor, act.now, site.bounds) && t.lost == s.lost
                         && exists r :: t.queue == s.queue + [r]
                              && r.call == |s.pressed| && r.kind == NotAcknowledged && r.deadline == act.now + 100
                              && r.command.target == act.choice && ButtonOf(r.command) == b
  {
    hide Optimal, NoneToChoose;
    var t := After(site, s, act);
    if act.update.state.id == site.localId && act.choice != NO_ID {
      assert t.queue == s.queue + [t.queue[|s.queue|]];
    }
  }

  // ---- one report

  /** The report that its request waits for. */
  predicate Awaited(r: Request, update: StateChange) {
    if r.kind == NotAcknowledged then Announces(update, r) else r.kind == NotDone && Serves(update, r)
  }

  lemma AwaitedIs(site: Site, r: Request, update: StateChange, pressed: seq<Button>)
    requires ForCall(r, pressed) && HallButtons(pressed)
    ensures r.kind != Done ==> (r.AnsweredBy(update) <==> Awaited(r, update))
    ensures r.kind != Done && Awaited(r, update) ==>
              && Pressed(site, update) == Nothing
              && Acknowledges(update) == Just(if r.kind == NotAcknowledged then 30000 else 0)
  {
    assert pressed[r.call].kind != TargetFloor;
  }

  /** An acknowledged request: it has half a minute to be served. */
  function Confirmed(r: Request, now: int): Request {
    r.(kind := NotDone, repeated := 0, deadline := now + 30000, delta := 30000)
  }

  lemma ProgressedIs(site: Site, r: Request, update: StateChange, now: int, log: seq<StateChange>, pressed: seq<Button>)
    requires Pending(r, log, pressed) && HallButtons(pressed) && Acknowledges(update).Just?
    ensures var a := Ack(update, Acknowledges(update).value, now);
            && Progressed(r, a) == (if !Awaited(r, update) then [r]
                                    else if r.kind == NotAcknowledged then [Confirmed(r, now)] else [])
            && Ended(r, a) == (if Awaited(r, update) && r.kind == NotDone then [r] else [])
  {
    AwaitedIs(site, r, update, pressed);
    hide Awaited, Request.AnsweredBy, Announced, Acknowledges;
  }

  /** What a report makes of a queued request, as the queue and the finished requests show it. */
  lemma ReportReaches(site: Site, s: Calls, act: Action, r: Request)
    requires Inv(site, s) && Enabled(site, s, act) && act.Process? && r in s.queue
    ensures var t := After(site, s, act);
            if !Awaited(r, act.update) then r in t.queue
            else if r.kind == NotAcknowledged then Confirmed(r, act.now) in t.queue
            else r in t.finished
  {
    QueuedParts(site, s, r);
    AwaitedIs(site, r, act.update, s.pressed);
    if Acknowledges(act.update) == Nothing {
      hide Awaited, Inv, Pending, ForCall, HallButtons, Enabled, Request.AnsweredBy;
      OtherReport(site, s, act);
    } else {
      PressedOrAcknowledged(site, act.update);
      ProgressedIs(site, r, act.update, act.now, s.log, s.pressed);
      AckIs(site, s, act);
      hide Awaited, Inv, Pending, ForCall, HallButtons, Enabled, After, Pressed, Acknowledges, Progressed, Ended,
           Request.AnsweredBy;
      var a := Ack(act.update, Acknowledges(act.update).value, act.now);
      MemberOfMap(s.queue, r, Progress(a));
      MemberOfMap(s.queue, r, Ending(a));
    }
  }

  lemma PressedOrAcknowledged(site: Site, update: StateChange)
    ensures Pressed(site, update) == Nothing || Acknowledges(update) == Nothing
  {
  }

  lemma QueuedParts(site: Site, s: Calls, r: Request)
    requires Inv(site, s) && r in s.queue
    ensures Pending(r, s.log, s.pressed) && ForCall(r, s.pressed) && HallButtons(s.pressed) && r.kind != Done
  {
    hide Tracked, AllServed, AllLost, HallButtons, ForCall, Announced;
  }

  lemma OtherReport(site: Site, s: Calls, act: Action)
    requires Enabled(site, s, act) && act.Process? && Acknowledges(act.update) == Nothing
    ensures s.queue <= After(site, s, act).queue && After(site, s, act).finished == s.finished
  {
    hide Enabled;
  }

  lemma MemberOfMap(c: seq<Request>, r: Request, f: Request -> seq<Request>)
    requires r in c
    ensures forall y :: y in f(r) ==> y in FlatMap(c, f)
  {
    var i :| 0 <= i < |c| && c[i] == r;
    forall y | y in f(r)
      ensures y in FlatMap(c, f)
    {
      FlatMapMember(c, f, y);
    }
  }

  /** The request is queued, and no other is for its call. */
  predicate OnlyEntry(c: seq<Request>, x: Request) {
    x in c && forall y :: y in c && y.call == x.call ==> y == x
  }

  predicate NoEntry(c: seq<Request>, n: nat) {
    forall y :: y in c ==> y.call != n
  }

  lemma EntriesAreUnique(site: Site, t: Calls, x: Request)
    requires Inv(site, t)
    ensures x in t.queue ==> OnlyEntry(t.queue, x)
    ensures x in t.finished ==> NoEntry(t.queue, x.call)
  {
    OnePlace(site, t, x.call);
    hide Inv, Numbers, HandNumbers, LostNumbers;
    if x in t.finished {
      CountedIn(t.finished, x);
    }
    forall y | y in t.queue && y.call == x.call
      ensures x in t.queue ==> y == x
      ensures x !in t.finished
    {
      CountedIn(t.queue, y);
      if x in t.queue {
        UniqueCall(t.queue, x, y);
      }
    }
  }

  /** In every reachable state, for every queued request and every report that is processed: the announcement of
      its call by its elevator makes it wait half a minute for the service; the report of the service, after
      that, finishes it; every other report leaves it as it was. */
  lemma ReportMeans(site: Site, s: Calls, act: Action, r: Request)
    requires Inv(site, s) && Enabled(site, s, act) && act.Process? && r in s.queue
    ensures var t := After(site, s, act);
            && t.hand == s.hand
            && if r.kind == NotAcknowledged && Announces(act.update, r)
               then OnlyEntry(t.queue, r.(kind := NotDone, repeated := 0, deadline := act.now + 30000, delta := 30000))
               else if r.kind == NotDone && Serves(act.update, r) then r in t.finished && NoEntry(t.queue, r.call)
               else OnlyEntry(t.queue, r)
  {
    hide Inv, Enabled, After, OnlyEntry, NoEntry;
    var t := After(site, s, act);
    ReportReaches(site, s, act, r);
    QueuedParts(site, s, r);
    StepInv(site, s, act);
    ProcessKeepsHand(site, s, act);
    EntriesAreUnique(site, t, r);
    EntriesAreUnique(site, t, Confirmed(r, act.now));
  }

  lemma ProcessKeepsHand(site: Site, s: Calls, act: Action)
    requires Enabled(site, s, act) && act.Process?
    ensures After(site, s, act).hand == s.hand
  {
    hide Enabled;
  }

  // ---- runs

  predicate IsFinished(s: Calls, n: nat) {
    exists f :: f in s.finished && f.call == n
  }

  /** The elevator that has announced call n, and that it still belongs to, reports its service. */
  predicate FinishedBy(s: Calls, act: Action, n: nat) {
    act.Process? && exists r :: r in s.queue && r.call == n && r.kind == NotDone && Serves(act.update, r)
  }

  lemma FinishedStep(site: Site, s: Calls, act: Action, n: nat)
    requires Inv(site, s) && Enabled(site, s, act)
    ensures IsFinished(After(site, s, act), n) <==> IsFinished(s, n) || FinishedBy(s, act, n)
  {
    var t := After(site, s, act);
    FinishedGrows(site, s, act);
    if FinishedBy(s, act, n) {
      var r :| r in s.queue && r.call == n && r.kind == NotDone && Serves(act.update, r);
      ReportReaches(site, s, act, r);
    }
    if f :| f in t.finished && f.call == n && f !in s.finished {
      NewlyFinished(site, s, act, f);
    }
    hide Inv, Enabled, After, Serves;
  }

  lemma FinishedGrows(site: Site, s: Calls, act: Action)
    requires Enabled(site, s, act)
    ensures forall f :: f in s.finished ==> f in After(site, s, act).finished
  {
    hide Enabled, EagerAck, FlatMap;
  }

  lemma NewlyFinished(site: Site, s: Calls, act: Action, f: Request)
    requires Inv(site, s) && Enabled(site, s, act) && f in After(site, s, act).finished && f !in s.finished
    ensures act.Process? && f in s.queue && f.kind == NotDone && Serves(act.update, f)
  {
    FinishedByReport(site, s, act, f);
    PressedOrAcknowledged(site, act.update);
    AckIs(site, s, act);
    var a := Ack(act.update, Acknowledges(act.update).value, act.now);
    hide Inv, Enabled, After, Pressed, Acknowledges, Pending, ForCall, HallButtons, EagerAck, FlatMap;
    FlatMapMember(s.queue, Ending(a), f);
    var i :| 0 <= i < |s.queue| && f in Ended(s.queue[i], a);
    QueuedParts(site, s, s.queue[i]);
    ProgressedIs(site, s.queue[i], act.update, act.now, s.log, s.pressed);
  }

  lemma FinishedByReport(site: Site, s: Calls, act: Action, f: Request)
    requires Enabled(site, s, act) && f in After(site, s, act).finished && f !in s.finished
    ensures act.Process? && Acknowledges(act.update).Just?
  {
    hide Enabled, EagerAck, FlatMap;
  }

  /** In every run: a call is finished if and only if at some time it was queued, announced, with an elevator
      that then reported its service. */
  lemma {:induction false} FinishedIff(site: Site, ss: seq<Calls>, acts: seq<Action>, k: nat, n: nat)
    requires Run(site, ss, acts) && k < |ss|
    ensures (exists f :: f in ss[k].finished && f.call == n)
       <==> exists j :: 0 <= j < k && FinishedBy(ss[j], acts[j], n)
  {
    hide Inv, Enabled, After, FinishedBy;
    if k > 0 {
      FinishedIff(site, ss, acts, k - 1, n);
      RunInv(site, ss, acts, k - 1);
      FinishedStep(site, ss[k - 1], acts[k - 1], n);
      assert ss[k] == After(site, ss[k - 1], acts[k - 1]);
    }
  }

  /** The call of r is announced and queued, or finished, with the elevator of r. */
  predicate OnTheWay(s: Calls, r: Request) {
    || (exists x :: x in s.queue && x.call == r.call && x.command == r.command && x.kind == NotDone)
    || (exists f :: f in s.finished && f.call == r.call && f.command == r.command)
  }

  predicate TakesOut(s: Calls, act: Action, n: nat) {
    act.Take? && act.i < |s.queue| && s.queue[act.i].call == n
  }

  lemma OnTheWayStep(site: Site, s: Calls, act: Action, r: Request)
    requires Inv(site, s) && Enabled(site, s, act) && OnTheWay(s, r) && !TakesOut(s, act, r.call)
    ensures OnTheWay(After(site, s, act), r)
  {
    var t := After(site, s, act);
    FinishedGrows(site, s, act);
    if x :| x in s.queue && x.call == r.call && x.command == r.command && x.kind == NotDone {
      if act.Process? {
        ReportReaches(site, s, act, x);
      } else {
        StaysQueued(site, s, act, x);
      }
    }
    hide Inv, Enabled, After, Awaited;
  }

  lemma StaysQueued(site: Site, s: Calls, act: Action, x: Request)
    requires Enabled(site, s, act) && !act.Process? && x in s.queue && !TakesOut(s, act, x.call)
    ensures x in After(site, s, act).queue
  {
    hide Resent;
    if act.Take? {
      var i :| 0 <= i < |s.queue| && s.queue[i] == x;
      assert i != act.i;
      assert x == if i < act.i then s.queue[..act.i][i] else s.queue[act.i + 1..][i - act.i - 1];
    }
  }

  lemma {:induction false} OnTheWayUntil(site: Site, ss: seq<Calls>, acts: seq<Action>, j: nat, k: nat, r: Request)
    requires Run(site, ss, acts) && j <= k < |ss| && OnTheWay(ss[j], r)
    requires forall i :: j <= i < k ==> !TakesOut(ss[i], acts[i], r.call)
    ensures OnTheWay(ss[k], r)
  {
    hide Inv, Enabled, After, OnTheWay, TakesOut;
    if j < k {
      OnTheWayUntil(site, ss, acts, j, k - 1, r);
      RunInv(site, ss, acts, k - 1);
      OnTheWayStep(site, ss[k - 1], acts[k - 1], r);
      assert ss[k] == After(site, ss[k - 1], acts[k - 1]);
    }
  }

  /** In every run: if the elevator of a queued request announces its call, and later reports its service, and
      the half minute does not run out in between, so that the call is not taken out to be given to another
      elevator, then the call is finished, and stays so. */
  lemma AnnouncedAndServedIsFinished(site: Site, ss: seq<Calls>, acts: seq<Action>, j: nat, k: nat, m: nat, r: Request)
    requires Run(site, ss, acts) && j < k < m < |ss|
    requires r in ss[j].queue && r.kind == NotAcknowledged && acts[j].Process? && Announces(acts[j].update, r)
    requires acts[k].Process? && Serves(acts[k].update, r)
    requires forall i :: j < i < k ==> !TakesOut(ss[i], acts[i], r.call)
    ensures exists f :: f in ss[m].finished && f.call == r.call
  {
    hide Inv, Enabled, After, TakesOut;
    RunInv(site, ss, acts, j);
    RunInv(site, ss, acts, k);
    ReportReaches(site, ss[j], acts[j], r);
    assert ss[j + 1] == After(site, ss[j], acts[j]);
    OnTheWayUntil(site, ss, acts, j + 1, k, r);
    FinishedStep(site, ss[k], acts[k], r.call);
    assert ss[k + 1] == After(site, ss[k], acts[k]);
    FinishedIff(site, ss, acts, k + 1, r.call);
    FinishedIff(site, ss, acts, m, r.call);
  }
}
