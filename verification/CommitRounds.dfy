/**
 N workers that share a transaction manager, in any interleaving. In each round a worker adds ten to its
 number or fails, goes through the commit barrier, and keeps or takes back its change.
*/
module CommitRounds {
  import opened CommitManager

  /** Where a worker stands between two of its atomic steps. */
  datatype Place = Working | Failed | Calling | Queued | Released

  /** A worker, with two records of its past: in which rounds it failed, and what it was told. */
  datatype Worker = Worker(initial: int, num: int, prev: int, round: nat, place: Place,
                           failures: seq<bool>, decisions: seq<bool>) {

    function Added(): Worker { this.(num := num + 10, failures := failures + [false], place := Calling) }

    function Signalled(): Worker { this.(failures := failures + [true], place := Calling) }

    function Settled(commit: bool): Worker {
      var kept := if commit then num else prev;
      this.(num := kept, prev := kept, round := round + 1, place := Working, decisions := decisions + [commit])
    }
  }

  datatype System = System(manager: Manager, workers: seq<Worker>)

  datatype Action = Add(w: nat) | Fail(w: nat) | Signal(w: nat) | Finish(w: nat) | Decide(w: nat)

  predicate Enabled(s: System, a: Action) {
    && a.w < |s.workers|
    && match a
       case Add(w) => s.workers[w].place == Working
       case Fail(w) => s.workers[w].place == Working
       case Signal(w) => s.workers[w].place == Failed
       case Finish(w) => s.workers[w].place == Calling
       case Decide(w) => s.workers[w].place == Released
  }

  function Wake(workers: seq<Worker>, released: seq<nat>): (woken: seq<Worker>)
    ensures |woken| == |workers|
  {
    seq(|workers|, i requires 0 <= i < |workers| =>
      if i in released then workers[i].(place := Released) else workers[i])
  }

  function After(s: System, a: Action): System
    requires Enabled(s, a)
  {
    var me := s.workers[a.w];
    match a
    case Add(w) =>
      s.(workers := s.workers[w := me.Added()])
    case Fail(w) =>
      s.(workers := s.workers[w := me.(place := Failed)])
    case Signal(w) =>
      s.(manager := s.manager.(aborted := true),
         workers := s.workers[w := me.Signalled()])
    case Finish(w) =>
      var (m, released) := s.manager.Call(w);
      System(m, Wake(s.workers[w := me.(place := Queued)], released))
    case Decide(w) =>
      s.(workers := s.workers[w := me.Settled(s.manager.willCommit)])
  }

  /** A worker between its calls of `Finished`. Where it stands, and the record of its past, are kept
      beside its own variables. */
  class TransactionWorker {
    const initial: int
    var num: int
    var prev: int
    var roundNum: nat
    ghost var place: Place
    ghost var failures: seq<bool>
    ghost var decisions: seq<bool>

    ghost function State(): Worker
      reads this
    {
      Worker(initial, num, prev, roundNum, place, failures, decisions)
    }

    constructor (initial: int)
      ensures State() == Worker(initial, initial, initial, 1, Working, [], [])
    {
      this.initial, num, prev, roundNum := initial, initial, initial, 1;
      place, failures, decisions := Working, [], [];
    }

    /** The transaction's work; `luck` says whether it raises `Count_Failed`. */
    method UnreliableSlowAdd(luck: bool)
      modifies this
      ensures State() == if luck then old(State()).Added() else old(State()).(place := Failed)
    {
      if luck {
        num := 10 + num;
        place, failures := Calling, failures + [false];
      } else {
        place := Failed;
      }
    }

    /** The handler of `Count_Failed`. */
    method HandleFailure(manager: TransactionManager)
      modifies this, manager
      ensures State() == old(State()).Signalled()
      ensures manager.State() == old(manager.State()).(aborted := true)
    {
      manager.SignalAbort();
      place, failures := Calling, failures + [true];
    }

    /** From the return of `Finished` to the start of the next round. */
    method Settle(manager: TransactionManager)
      modifies this
      ensures State() == old(State()).Settled(manager.willCommit)
    {
      var commit := manager.Commit();
      if !commit {
        num := prev;
      }
      prev := num;
      roundNum := roundNum + 1;
      place, decisions := Working, decisions + [commit];
    }
  }

  predicate Init(s: System) {
    && s.workers != []
    && s.manager == Manager(|s.workers|, false, false, true, [])
    && forall w :: 0 <= w < |s.workers| ==>
         var i := s.workers[w].initial; s.workers[w] == Worker(i, i, i, 1, Working, [], [])
  }

  predicate Run(ss: seq<System>, actions: seq<Action>) {
    && |ss| == |actions| + 1
    && Init(ss[0])
    && forall k :: 0 <= k < |actions| ==> Enabled(ss[k], actions[k]) && ss[k + 1] == After(ss[k], actions[k])
  }

  // ---- the meaning of a round

  predicate FailedIn(w: Worker, round: nat) {
    round < |w.failures| && w.failures[round]
  }

  /** Every worker has done its part of the round, and none signalled abort. */
  predicate AllSucceeded(s: System, round: nat) {
    forall w :: 0 <= w < |s.workers| ==> round < |s.workers[w].failures| && !FailedIn(s.workers[w], round)
  }

  function Commits(decisions: seq<bool>): nat {
    if decisions == [] then 0
    else Commits(decisions[..|decisions| - 1]) + if decisions[|decisions| - 1] then 1 else 0
  }

  // ---- the invariant

  /** A worker when `done` rounds have been decided. */
  predicate InStep(w: Worker, done: nat) {
    && w.round == |w.decisions| + 1
    && |w.decisions| == (if w.place == Released then done - 1 else done)
    && |w.failures| == (if w.place == Calling || w.place == Queued then done + 1 else done)
    && w.prev == w.initial + 10 * Commits(w.decisions)
    && w.num == (if |w.failures| == |w.decisions| || w.failures[|w.decisions|] then w.prev else w.prev + 10)
  }

  predicate QueueIsWaiters(s: System) {
    && |s.manager.queue| < s.manager.n == |s.workers|
    && (forall i, j :: 0 <= i < j < |s.manager.queue| ==> s.manager.queue[i] != s.manager.queue[j])
    && (forall w :: w in s.manager.queue ==> w < |s.workers|)
    && (forall w :: 0 <= w < |s.workers| ==> (s.workers[w].place == Queued <==> w in s.manager.queue))
  }

  predicate Decisions(s: System, done: nat) {
    && !s.manager.gateOpen
    && (s.manager.aborted <==> exists w :: 0 <= w < |s.workers| && FailedIn(s.workers[w], done))
    && (done > 0 ==> (s.manager.willCommit <==> AllSucceeded(s, done - 1)))
    && (forall w, r :: 0 <= w < |s.workers| && 0 <= r < |s.workers[w].decisions| ==>
          (s.workers[w].decisions[r] <==> AllSucceeded(s, r)))
  }

  predicate Inv(s: System, done: nat) {
    && QueueIsWaiters(s)
    && (forall w :: 0 <= w < |s.workers| ==> InStep(s.workers[w], done))
    && Decisions(s, done)
  }

  lemma InitInv(s: System)
    requires Init(s)
    ensures Inv(s, 0)
  {
  }

  function Below(n: nat): (numbers: set<nat>)
    ensures |numbers| == n && forall i: nat :: i in numbers <==> i < n
  {
    if n == 0 then {} else Below(n - 1) + {n - 1}
  }

  function Members(queue: seq<nat>): (members: set<nat>)
    ensures forall w :: w in members <==> w in queue
    ensures (forall i, j :: 0 <= i < j < |queue| ==> queue[i] != queue[j]) ==> |members| == |queue|
  {
    if queue == [] then {}
    else
      assert forall w :: w in queue <==> w == queue[0] || w in queue[1..];
      Members(queue[1..]) + {queue[0]}
  }

  /** Distinct numbers below n, n of them, are all the numbers below n. */
  lemma Everyone(queue: seq<nat>, n: nat)
    requires |queue| == n
    requires forall i, j :: 0 <= i < j < |queue| ==> queue[i] != queue[j]
    requires forall w :: w in queue ==> w < n
    ensures forall w :: 0 <= w < n ==> w in queue
  {
    var waiting, all := Members(queue), Below(n);
    assert all == waiting + (all - waiting);
    assert |all - waiting| == 0;
    assert forall w :: 0 <= w < n ==> w in all;
  }

  // ---- each step keeps the invariant

  /** One worker's step that leaves the manager and everyone's place in the queue alone. */
  lemma AddInv(s: System, w: nat, done: nat)
    requires Inv(s, done) && Enabled(s, Add(w))
    ensures Inv(After(s, Add(w)), done)
  {
    hide Decisions, QueueIsWaiters, InStep;
    var s' := After(s, Add(w));
    assert s'.manager == s.manager && s'.workers == s.workers[w := s.workers[w].Added()];
    AddedInStep(s.workers[w], done);
    hide After, Worker.Added, FailedIn;
    StepQueue(s, w, s');
    RecordLengths(s, done);
    OtherDecisions(s, s', done);
  }

  lemma AddedInStep(w: Worker, done: nat)
    requires InStep(w, done) && w.place == Working
    ensures InStep(w.Added(), done) && w.Added().place == Calling
    ensures w.Added().decisions == w.decisions && w.failures <= w.Added().failures
    ensures FailedIn(w, done) == FailedIn(w.Added(), done)
  {
  }

  /** A worker's step outside the queue. */
  lemma StepQueue(s: System, w: nat, s': System)
    requires QueueIsWaiters(s) && w < |s.workers| == |s'.workers|
    requires s.workers[w].place != Queued && s'.workers[w].place != Queued
    requires s'.workers == s.workers[w := s'.workers[w]]
    requires s'.manager.queue == s.manager.queue && s'.manager.n == s.manager.n
    ensures QueueIsWaiters(s')
  {
  }

  lemma RecordLengths(s: System, done: nat)
    requires forall w :: 0 <= w < |s.workers| ==> InStep(s.workers[w], done)
    ensures forall w :: 0 <= w < |s.workers| ==> |s.workers[w].decisions| <= done <= |s.workers[w].failures|
  {
  }

  /** A step that tells nobody a decision and signals no abort. */
  lemma OtherDecisions(s: System, s': System, done: nat)
    requires Decisions(s, done) && |s.workers| == |s'.workers|
    requires forall w :: 0 <= w < |s.workers| ==>
               && |s.workers[w].decisions| <= done <= |s.workers[w].failures|
               && s.workers[w].failures <= s'.workers[w].failures
               && s.workers[w].decisions == s'.workers[w].decisions
               && FailedIn(s.workers[w], done) == FailedIn(s'.workers[w], done)
    requires s'.manager.(queue := []) == s.manager.(queue := [])
    ensures Decisions(s', done)
  {
    hide FailedIn, AllSucceeded;
    SameFailures(s, s', done);
  }

  lemma FailInv(s: System, w: nat, done: nat)
    requires Inv(s, done) && Enabled(s, Fail(w))
    ensures Inv(After(s, Fail(w)), done)
  {
    hide Decisions, QueueIsWaiters, Commits, AllSucceeded;
    var s' := After(s, Fail(w));
    StepQueue(s, w, s');
    RecordLengths(s, done);
    OtherDecisions(s, s', done);
  }

  lemma SignalInv(s: System, w: nat, done: nat)
    requires Inv(s, done) && Enabled(s, Signal(w))
    ensures Inv(After(s, Signal(w)), done)
  {
    var s' := After(s, Signal(w));
    assert s'.manager == s.manager.(aborted := true);
    assert s'.workers == s.workers[w := s.workers[w].Signalled()];
    hide After, AllSucceeded, Commits;
    assert FailedIn(s'.workers[w], done);
    SameFailures(s, s', done);
  }

  /** Records of earlier rounds are settled. */
  lemma SameFailures(s: System, s': System, done: nat)
    requires |s.workers| == |s'.workers|
    requires forall w :: 0 <= w < |s.workers| ==> s.workers[w].failures <= s'.workers[w].failures
    requires forall w :: 0 <= w < |s.workers| ==> done <= |s.workers[w].failures|
    ensures forall r :: 0 <= r < done ==> (AllSucceeded(s, r) <==> AllSucceeded(s', r))
  {
    forall r | 0 <= r < done
      ensures AllSucceeded(s, r) <==> AllSucceeded(s', r)
    {
      forall w | 0 <= w < |s.workers|
        ensures FailedIn(s.workers[w], r) == FailedIn(s'.workers[w], r)
      {
        assert s'.workers[w].failures[r] == s.workers[w].failures[r];
      }
    }
  }

  lemma DecideInv(s: System, w: nat, done: nat)
    requires Inv(s, done) && Enabled(s, Decide(w))
    ensures Inv(After(s, Decide(w)), done)
  {
    DecideDecisions(s, w, done);
    DecisionIsRight(s, w, done);
    hide Decisions, QueueIsWaiters, InStep;
    var s' := After(s, Decide(w));
    assert s'.manager == s.manager;
    assert s'.workers == s.workers[w := s.workers[w].Settled(s.manager.willCommit)];
    SettledInStep(s.workers[w], done, s.manager.willCommit);
    hide After, Worker.Settled;
    StepQueue(s, w, s');
  }

  lemma DecisionIsRight(s: System, w: nat, done: nat)
    requires Inv(s, done) && Enabled(s, Decide(w))
    ensures FailedIn(s.workers[w], done - 1) ==> !s.manager.willCommit
  {
    hide QueueIsWaiters, Commits;
    assert InStep(s.workers[w], done);
    assert s.manager.willCommit <==> AllSucceeded(s, done - 1);
  }

  lemma SettledInStep(w: Worker, done: nat, commit: bool)
    requires InStep(w, done) && w.place == Released && (FailedIn(w, done - 1) ==> !commit)
    ensures InStep(w.Settled(commit), done) && w.Settled(commit).place == Working
  {
    assert w.Settled(commit).decisions[..done - 1] == w.decisions;
  }

  lemma DecideDecisions(s: System, w: nat, done: nat)
    requires Inv(s, done) && Enabled(s, Decide(w))
    ensures Decisions(After(s, Decide(w)), done)
  {
    hide InStep, QueueIsWaiters, AllSucceeded, FailedIn, Commits;
    var s' := After(s, Decide(w));
    assert s'.manager == s.manager;
    assert s'.workers == s.workers[w := s.workers[w].Settled(s.manager.willCommit)];
    hide After;
    RecordLengths(s, done);
    ReleasedLength(s.workers[w], done);
    SameFailures(s, s', done);
    SameAborts(s, s', done);
    forall v, r | 0 <= v < |s'.workers| && 0 <= r < |s'.workers[v].decisions|
      ensures s'.workers[v].decisions[r] <==> AllSucceeded(s', r)
    {
      if v == w && r == done - 1 {
        assert s'.workers[v].decisions[r] == s.manager.willCommit;
      } else {
        assert s'.workers[v].decisions[r] == s.workers[v].decisions[r];
      }
    }
  }

  lemma ReleasedLength(w: Worker, done: nat)
    requires InStep(w, done) && w.place == Released
    ensures |w.decisions| == done - 1
  {
  }

  lemma SameAborts(s: System, s': System, round: nat)
    requires |s.workers| == |s'.workers|
    requires forall w :: 0 <= w < |s.workers| ==> s.workers[w].failures == s'.workers[w].failures
    ensures (exists w :: 0 <= w < |s.workers| && FailedIn(s.workers[w], round))
       <==> (exists w :: 0 <= w < |s'.workers| && FailedIn(s'.workers[w], round))
  {
  }

  /** A call that does not complete the queue leaves the round open; the call that completes it ends the
      round for everybody. */
  lemma FinishInv(s: System, w: nat, done: nat)
    requires Inv(s, done) && Enabled(s, Finish(w))
    ensures Inv(After(s, Finish(w)), if |s.manager.queue| + 1 < s.manager.n then done else done + 1)
  {
    hide After, InStep, Decisions;
    if |s.manager.queue| + 1 < s.manager.n {
      EarlierCallInv(s, w, done);
    } else {
      LastCallInv(s, w, done);
    }
  }

  predicate SamePast(s: System, s': System) {
    && |s.workers| == |s'.workers|
    && forall w :: 0 <= w < |s.workers| ==>
         && s.workers[w].failures == s'.workers[w].failures
         && s.workers[w].decisions == s'.workers[w].decisions
  }

  lemma SameDecisions(s: System, s': System, done: nat)
    requires Inv(s, done) && SamePast(s, s')
    requires s'.manager.(queue := []) == s.manager.(queue := [])
    ensures Decisions(s', done)
  {
    hide Decisions, QueueIsWaiters, InStep;
    RecordLengths(s, done);
    OtherDecisions(s, s', done);
  }

  lemma NextDecisions(s: System, s': System, done: nat)
    requires Inv(s, done) && SamePast(s, s')
    requires forall w :: 0 <= w < |s.workers| ==> |s.workers[w].failures| == done + 1
    requires s'.manager == Manager(s.manager.n, false, false, !s.manager.aborted, [])
    ensures Decisions(s', done + 1)
  {
    assert forall w :: 0 <= w < |s.workers| ==> InStep(s.workers[w], done);
    hide InStep, QueueIsWaiters;
    SameFailures(s, s', done);
    NextOutcome(s, s', done);
    hide AllSucceeded, FailedIn;
  }

  /** The outcome of the round that has just been completed. */
  lemma NextOutcome(s: System, s': System, done: nat)
    requires Decisions(s, done) && SamePast(s, s')
    requires forall w :: 0 <= w < |s.workers| ==> |s.workers[w].failures| == done + 1
    ensures AllSucceeded(s', done) <==> !s.manager.aborted
    ensures !exists v :: 0 <= v < |s'.workers| && FailedIn(s'.workers[v], done + 1)
  {
    SameAborts(s, s', done);
  }

  lemma EarlierCallInv(s: System, w: nat, done: nat)
    requires Inv(s, done) && Enabled(s, Finish(w)) && |s.manager.queue| + 1 < s.manager.n
    ensures Inv(After(s, Finish(w)), done)
  {
    hide InStep, Decisions, QueueIsWaiters;
    var s' := After(s, Finish(w));
    GateIsClosed(s, done);
    EarlierCallWaits(s.manager, w);
    hide Manager.Call;
    assert s'.manager == s.manager.(queue := s.manager.queue + [w]);
    assert s'.workers == s.workers[w := s.workers[w].(place := Queued)];
    hide After;
    SameDecisions(s, s', done);
    EarlierQueue(s, w, s');
    QueuedInStep(s.workers[w], done);
  }

  lemma GateIsClosed(s: System, done: nat)
    requires Decisions(s, done)
    ensures !s.manager.gateOpen
  {
  }

  lemma QueuedInStep(w: Worker, done: nat)
    requires InStep(w, done) && w.place == Calling
    ensures InStep(w.(place := Queued), done)
  {
  }

  lemma EarlierQueue(s: System, w: nat, s': System)
    requires QueueIsWaiters(s) && w < |s.workers| && s.workers[w].place == Calling
    requires |s.manager.queue| + 1 < s.manager.n
    requires s'.manager == s.manager.(queue := s.manager.queue + [w])
    requires s'.workers == s.workers[w := s.workers[w].(place := Queued)]
    ensures QueueIsWaiters(s')
  {
  }

  lemma LastCallInv(s: System, w: nat, done: nat)
    requires Inv(s, done) && Enabled(s, Finish(w)) && |s.manager.queue| + 1 == s.manager.n
    ensures Inv(After(s, Finish(w)), done + 1)
  {
    var s' := After(s, Finish(w));
    LastCallReleasesAll(s.manager, w);
    EveryoneCalled(s, w, done);
    ReleasedByCall(s, w);
    assert s'.manager == Manager(s.manager.n, false, false, !s.manager.aborted, []);
    hide Manager.Call, After, InStep;
    assert QueueIsWaiters(s') by {
      hide Decisions;
    }
    assert s.manager.n == |s.workers|;
    hide QueueIsWaiters;
    NextDecisions(s, s', done);
    hide Decisions;
  }

  lemma EveryoneCalled(s: System, w: nat, done: nat)
    requires Inv(s, done) && Enabled(s, Finish(w)) && |s.manager.queue| + 1 == s.manager.n
    ensures forall v :: 0 <= v < |s.workers| ==> v in s.manager.queue + [w]
    ensures forall v :: 0 <= v < |s.workers| ==>
              && |s.workers[v].failures| == done + 1
              && InStep(s.workers[v].(place := Released), done + 1)
  {
    hide Decisions, Commits;
    Everyone(s.manager.queue + [w], s.manager.n);
    forall v | 0 <= v < |s.workers|
      ensures |s.workers[v].failures| == done + 1 && InStep(s.workers[v].(place := Released), done + 1)
    {
      assert v in s.manager.queue + [w];
      assert InStep(s.workers[v], done);
    }
  }

  lemma ReleasedByCall(s: System, w: nat)
    requires Enabled(s, Finish(w))
    requires s.manager.Call(w).1 == s.manager.queue + [w]
    requires forall v :: 0 <= v < |s.workers| ==> v in s.manager.queue + [w]
    ensures |After(s, Finish(w)).workers| == |s.workers|
    ensures forall v :: 0 <= v < |s.workers| ==>
              After(s, Finish(w)).workers[v] == s.workers[v].(place := Released)
  {
    hide Manager.Call;
  }

  // ---- all runs

  function Rounds(s: System, a: Action, done: nat): nat {
    if a.Finish? && |s.manager.queue| + 1 == s.manager.n then done + 1 else done
  }

  lemma StepInv(s: System, a: Action, done: nat)
    requires Inv(s, done) && Enabled(s, a)
    ensures Inv(After(s, a), Rounds(s, a, done))
  {
    match a
    case Add(w) => AddInv(s, w, done);
    case Fail(w) => FailInv(s, w, done);
    case Signal(w) => SignalInv(s, w, done);
    case Finish(w) => FinishInv(s, w, done);
    case Decide(w) => DecideInv(s, w, done);
  }

  lemma {:induction false} RunInv(ss: seq<System>, actions: seq<Action>, k: nat) returns (done: nat)
    requires Run(ss, actions) && k < |ss|
    ensures Inv(ss[k], done)
  {
    if k == 0 {
      InitInv(ss[0]);
      done := 0;
    } else {
      RunStep(ss, actions, k - 1);
      hide Run, Inv, Enabled, After;
      var before := RunInv(ss, actions, k - 1);
      StepInv(ss[k - 1], actions[k - 1], before);
      done := Rounds(ss[k - 1], actions[k - 1], before);
    }
  }

  /** Agreement and validity: whoever has been told the outcome of a round was told the same, and it was
      to commit exactly when every worker had finished the round and none of them had signalled abort. */
  lemma CommitAgreement(ss: seq<System>, actions: seq<Action>, k: nat, v: nat, w: nat, r: nat)
    requires Run(ss, actions) && k < |ss|
    requires v < |ss[k].workers| && r < |ss[k].workers[v].decisions|
    requires w < |ss[k].workers| && r < |ss[k].workers[w].decisions|
    ensures ss[k].workers[v].decisions[r] == ss[k].workers[w].decisions[r]
    ensures ss[k].workers[v].decisions[r] <==> AllSucceeded(ss[k], r)
  {
    var done := RunInv(ss, actions, k);
    hide AllSucceeded;
    assert ss[k].workers[v].decisions[r] <==> AllSucceeded(ss[k], r);
    assert ss[k].workers[w].decisions[r] <==> AllSucceeded(ss[k], r);
  }

  /** At the start of a round a worker's number is its initial one plus ten for each committed round. */
  lemma NumbersCountCommits(ss: seq<System>, actions: seq<Action>, k: nat, w: nat)
    requires Run(ss, actions) && k < |ss| && w < |ss[k].workers|
    ensures var me := ss[k].workers[w];
            && me.prev == me.initial + 10 * Commits(me.decisions)
            && (me.place == Working ==> me.num == me.prev)
  {
    var done := RunInv(ss, actions, k);
    assert InStep(ss[k].workers[w], done);
  }

  /** No worker is more than one round ahead of another, and the workers are never all waiting. */
  lemma OneRoundApart(ss: seq<System>, actions: seq<Action>, k: nat, v: nat, w: nat)
    requires Run(ss, actions) && k < |ss| && v < |ss[k].workers| && w < |ss[k].workers|
    ensures ss[k].workers[v].round <= ss[k].workers[w].round + 1
    ensures exists a :: Enabled(ss[k], a)
  {
    var done := RunInv(ss, actions, k);
    assert InStep(ss[k].workers[v], done);
    assert InStep(ss[k].workers[w], done);
    SomeoneCanStep(ss[k], done);
  }

  lemma SomeoneCanStep(s: System, done: nat)
    requires Inv(s, done)
    ensures exists a :: Enabled(s, a)
  {
    hide Decisions, InStep;
    if forall w :: 0 <= w < |s.workers| ==> s.workers[w].place == Queued {
      assert Below(|s.workers|) <= Members(s.manager.queue);
      Subset(Below(|s.workers|), Members(s.manager.queue));
    } else {
      var w :| 0 <= w < |s.workers| && s.workers[w].place != Queued;
      assert Enabled(s, Add(w)) || Enabled(s, Signal(w)) || Enabled(s, Finish(w)) || Enabled(s, Decide(w));
    }
  }

  lemma Subset(a: set<nat>, b: set<nat>)
    requires a <= b
    ensures |a| <= |b|
  {
    assert b == a + (b - a);
  }

  // ---- progress

  function Progress(w: Worker): nat {
    5 * |w.decisions| + match w.place
                        case Working => 0
                        case Failed => 1
                        case Calling => 2
                        case Queued => 3
                        case Released => 4
  }

  function Total(workers: seq<Worker>): nat {
    if workers == [] then 0 else Total(workers[..|workers| - 1]) + Progress(workers[|workers| - 1])
  }

  /** Someone moves on, and nobody goes back. */
  lemma {:induction false} TotalGrows(before: seq<Worker>, now: seq<Worker>, w: nat)
    requires |before| == |now|
    requires forall v :: 0 <= v < |before| ==> Progress(before[v]) <= Progress(now[v])
    ensures Total(before) <= Total(now)
    ensures w < |before| && Progress(before[w]) < Progress(now[w]) ==> Total(before) < Total(now)
  {
    if before != [] {
      var n := |before| - 1;
      TotalGrows(before[..n], now[..n], w);
      assert before[n] == before[..][n];
    }
  }

  lemma {:induction false} TotalBound(workers: seq<Worker>, bound: nat)
    requires forall v :: 0 <= v < |workers| ==> Progress(workers[v]) <= bound
    ensures Total(workers) <= |workers| * bound
  {
    if workers != [] {
      var n := |workers| - 1;
      TotalBound(workers[..n], bound);
      hide Progress;
      assert (n + 1) * bound == n * bound + bound;
    }
  }

  lemma StepProgress(s: System, a: Action, done: nat)
    requires Inv(s, done) && Enabled(s, a)
    ensures |After(s, a).workers| == |s.workers|
    ensures Total(s.workers) < Total(After(s, a).workers)
  {
    var s' := After(s, a);
    if a.Finish? {
      FinishProgress(s, a.w, done);
    }
    hide Inv, Manager.Call;
    TotalGrows(s.workers, s'.workers, a.w);
  }

  lemma FinishProgress(s: System, w: nat, done: nat)
    requires Inv(s, done) && Enabled(s, Finish(w))
    ensures forall v :: 0 <= v < |s.workers| ==> Progress(s.workers[v]) <= Progress(After(s, Finish(w)).workers[v])
    ensures Progress(s.workers[w]) < Progress(After(s, Finish(w)).workers[w])
  {
    assert !s.manager.gateOpen && QueueIsWaiters(s);
    hide Inv;
    if |s.manager.queue| + 1 < s.manager.n {
      EarlierCallWaits(s.manager, w);
    } else {
      LastCallReleasesAll(s.manager, w);
    }
    hide Manager.Call;
    WakingProgress(s, w);
  }

  lemma WakingProgress(s: System, w: nat)
    requires QueueIsWaiters(s) && Enabled(s, Finish(w))
    requires forall v :: v in s.manager.Call(w).1 ==> v == w || v in s.manager.queue
    ensures forall v :: 0 <= v < |s.workers| ==> Progress(s.workers[v]) <= Progress(After(s, Finish(w)).workers[v])
    ensures Progress(s.workers[w]) < Progress(After(s, Finish(w)).workers[w])
  {
    hide Manager.Call;
    var s' := After(s, Finish(w));
    var released := s.manager.Call(w).1;
    assert s'.workers == Wake(s.workers[w := s.workers[w].(place := Queued)], released);
    hide After;
    forall v | 0 <= v < |s.workers|
      ensures Progress(s.workers[v]) <= Progress(s'.workers[v])
    {
      assert v in released && v != w ==> s.workers[v].place == Queued;
    }
  }

  lemma {:induction false} StepsAreProgress(ss: seq<System>, actions: seq<Action>, k: nat)
    requires Run(ss, actions) && k < |ss|
    ensures Total(ss[k].workers) >= k
    ensures |ss[k].workers| == |ss[0].workers|
  {
    if k > 0 {
      RunStep(ss, actions, k - 1);
      hide Run, Enabled, After, Inv, Total;
      StepsAreProgress(ss, actions, k - 1);
      var done := RunInv(ss, actions, k - 1);
      StepProgress(ss[k - 1], actions[k - 1], done);
    }
  }

  lemma RunStep(ss: seq<System>, actions: seq<Action>, k: nat)
    requires Run(ss, actions) && k < |actions|
    ensures |ss| == |actions| + 1 && Enabled(ss[k], actions[k]) && ss[k + 1] == After(ss[k], actions[k])
  {
    hide Enabled, After;
  }

  /** Every worker makes progress in every run, without any fairness: after k steps of n workers, each of
      them has decided at least k / 5n - 2 rounds. */
  lemma EveryWorkerAdvances(ss: seq<System>, actions: seq<Action>, k: nat, w: nat)
    requires Run(ss, actions) && k < |ss| && w < |ss[k].workers|
    ensures k <= |ss[0].workers| * (5 * |ss[k].workers[w].decisions| + 8)
  {
    StepsAreProgress(ss, actions, k);
    var done := RunInv(ss, actions, k);
    assert InStep(ss[k].workers[w], done);
    var bound := 5 * done + 3;
    forall v | 0 <= v < |ss[k].workers|
      ensures Progress(ss[k].workers[v]) <= bound
    {
      assert InStep(ss[k].workers[v], done);
    }
    TotalBound(ss[k].workers, bound);
    hide Run, Inv, Progress, Total;
    Wider(|ss[0].workers|, bound, 5 * |ss[k].workers[w].decisions| + 8);
  }

  lemma Wider(n: nat, x: nat, y: nat)
    requires x <= y
    ensures n * x <= n * y
  {
  }
}
