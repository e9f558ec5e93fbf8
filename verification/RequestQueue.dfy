/** The queue of requests, shared by the thread that processes reports and the thread that waits. */
module RequestQueues {
  import opened ElevatorTypes
  import opened Requests
  import opened RequestViews

  /** What other threads do to the queue while its waiter sleeps, and when. */
  datatype Event = Pushed(request: Request, now: int) | Reported(ack: Ack) {
    function At(): int { if Pushed? then now else ack.now }

    /** A request is pushed when its deadline is set; the scheduler postpones by nothing or by SERVICE. */
    predicate Regular() {
      match this
      case Pushed(r, now) =>
        && r.kind != Done && r.tweaked == Nothing
        && (r.delta == ANSWER || r.delta == SERVICE)
        && r.deadline == now + r.delta
      case Reported(a) => a.delta == 0 || a.delta == SERVICE
    }
  }

  /** Regular events, on a clock that does not go back. */
  predicate Timely(events: seq<Event>, clock: int, until: int) {
    && clock <= until
    && (forall i :: 0 <= i < |events| ==> events[i].Regular() && clock <= events[i].At() <= until)
    && (forall i, j :: 0 <= i < j < |events| ==> events[i].At() <= events[j].At())
  }

  /** One look at the clock, and what happens in the sleep after it. */
  datatype Sleep = Sleep(now: int, events: seq<Event>)

  function NextLook(sleeps: seq<Sleep>, k: nat, until: int): int {
    if k + 1 < |sleeps| then sleeps[k + 1].now else until
  }

  predicate TimelySleeps(sleeps: seq<Sleep>, clock: int, until: int) {
    && (forall k :: 0 <= k < |sleeps| ==> clock <= sleeps[k].now <= until)
    && (forall k :: 0 <= k < |sleeps| ==> Timely(sleeps[k].events, sleeps[k].now, NextLook(sleeps, k, until)))
  }

  // ---- the queue as it is meant

  function EagerEvent(e: seq<Request>, event: Event): seq<Request> {
    match event
    case Pushed(r, _) => e + [r]
    case Reported(a) => EagerAck(e, a)
  }

  function EagerRun(e: seq<Request>, events: seq<Event>): seq<Request> {
    if events == [] then e else EagerEvent(EagerRun(e, events[..|events| - 1]), events[|events| - 1])
  }

  /** The real queue stands for the eager one, up to order. */
  predicate Represents(c: seq<Request>, e: seq<Request>) {
    multiset(Live(c)) == multiset(e)
  }

  lemma PushRepresents(c: seq<Request>, d: seq<Request>, e: seq<Request>, r: Request)
    requires Represents(c, e) && multiset(d) == multiset(c) + multiset{r}
    requires r.kind != Done && r.tweaked == Nothing
    ensures Represents(d, e + [r])
  {
    FlatMapPlus(d, c, r, LivePart);
    assert LivePart(r) == [r];
  }

  lemma AckRepresents(c: seq<Request>, e: seq<Request>, a: Ack)
    requires Represents(c, e)
    ensures Represents(AckAll(c, a), EagerAck(e, a))
  {
    AckIsEager(c, a);
    FlatMapPermuted(Live(c), e, Progress(a));
  }

  lemma AckKeepsHeap(c: seq<Request>, a: Ack)
    requires Heap(c)
    ensures Heap(AckAll(c, a))
  {
    forall j: nat | j < |c|
      ensures InPlace(AckAll(c, a), j)
    {
      assert InPlace(c, j);
    }
  }

  lemma AckKeepsSound(c: seq<Request>, a: Ack, clock: int)
    requires AllSound(c, clock) && clock <= a.now && (a.delta == 0 || a.delta == SERVICE)
    ensures AllSound(AckAll(c, a), a.now)
  {
    forall r | r in AckAll(c, a)
      ensures Sound(r, a.now)
    {
      var i :| 0 <= i < |c| && r == Acked(c[i], a);
      assert Sound(c[i], clock);
    }
  }

  lemma SoundLater(c: seq<Request>, clock: int, now: int)
    requires AllSound(c, clock) && clock <= now
    ensures AllSound(c, now)
  {
    forall r | r in c
      ensures Sound(r, now)
    {
      assert Sound(r, clock);
    }
  }

  lemma PermutedSound(c: seq<Request>, d: seq<Request>, clock: int)
    requires AllSound(c, clock) && forall r :: r in d ==> r in c || Sound(r, clock)
    ensures AllSound(d, clock)
  {
  }

  /** No stored deadline has come. */
  predicate AllLater(c: seq<Request>, now: int) {
    forall r :: r in c ==> r.deadline > now
  }

  lemma AckKeepsLater(c: seq<Request>, a: Ack, now: int)
    requires AllLater(c, now)
    ensures AllLater(AckAll(c, a), now)
  {
    forall r | r in AckAll(c, a)
      ensures r.deadline > now
    {
      var i :| 0 <= i < |c| && r == Acked(c[i], a);
      assert c[i] in c;
    }
  }

  lemma TopLater(c: seq<Request>, now: int)
    requires Heap(c) && (c != [] ==> c[0].deadline > now)
    ensures AllLater(c, now)
  {
    forall r | r in c
      ensures r.deadline > now
    {
      var i :| 0 <= i < |c| && r == c[i];
      TopIsEarliest(c, i);
    }
  }

  /** What is live is not due either, because deadlines are only put off. */
  lemma LaterNotDue(c: seq<Request>, clock: int, now: int)
    requires AllLater(c, now) && AllSound(c, clock)
    ensures NoneDue(Live(c), now)
  {
    forall r | r in Live(c)
      ensures r.deadline > now
    {
      FlatMapMember(c, LivePart, r);
      var i :| 0 <= i < |c| && r in LivePart(c[i]);
      assert Sound(c[i], clock) && c[i] in c;
    }
  }

  predicate NoneDue(e: seq<Request>, now: int) {
    forall r :: r in e ==> r.deadline > now
  }

  lemma {:induction false} EagerRunConcat(e: seq<Request>, xs: seq<Event>, ys: seq<Event>)
    ensures EagerRun(e, xs + ys) == EagerRun(EagerRun(e, xs), ys)
  {
    if ys == [] {
      assert xs + ys == xs;
    } else {
      var n := |ys| - 1;
      assert (xs + ys)[..|xs + ys| - 1] == xs + ys[..n];
      EagerRunConcat(e, xs, ys[..n]);
    }
  }

  /** All that happens in a number of sleeps. */
  function Events(sleeps: seq<Sleep>): seq<Event> {
    if sleeps == [] then [] else Events(sleeps[..|sleeps| - 1]) + sleeps[|sleeps| - 1].events
  }

  lemma PopRepresents(c: seq<Request>, h: seq<Request>, e: seq<Request>, clock: int)
    requires Represents(c, e) && Heap(c) && AllSound(c, clock) && c != []
    requires c[0].kind != Done && c[0].tweaked == Nothing
    requires multiset(c) == multiset(h) + multiset{c[0]}
    ensures multiset(e) == multiset(Live(h)) + multiset{c[0]}
    ensures forall r :: r in Live(h) ==> c[0].deadline <= r.deadline
  {
    FlatMapPlus(c, h, c[0], LivePart);
    assert LivePart(c[0]) == [c[0]];
    CleanTopIsNext(c, clock);
    MultisetSubset(Live(c), Live(h), c[0]);
  }

  class RequestQueue {
    var queue: seq<Request>

    ghost predicate Valid(clock: int)
      reads this
    {
      Heap(queue) && AllSound(queue, clock)
    }

    constructor ()
      ensures queue == []
    {
      queue := [];
    }

    /** The earlier of the first stored deadline and a given one. */
    method EarliestDeadline(extra: int) returns (d: int)
      ensures queue == [] ==> d == extra
      ensures queue != [] ==> d <= extra && d <= queue[0].deadline && (d == extra || d == queue[0].deadline)
    {
      if queue == [] {
        return extra;
      }
      d := if extra < queue[0].deadline then extra else queue[0].deadline;
    }

    /** The waiter is notified exactly when its deadline may have come closer. */
    method Push(r: Request) returns (notify: bool)
      requires Heap(queue)
      modifies this
      ensures Heap(queue) && multiset(queue) == multiset(old(queue)) + multiset{r}
      ensures notify <==> (old(queue) == [] || r.deadline < old(queue)[0].deadline)
    {
      ghost var before := queue;
      var oldDeadline := if queue == [] then 0 else queue[0].deadline;
      queue := PushHeap(queue, r);
      Sizes(queue, before, r);
      notify := |queue| == 1 || (|queue| > 1 && r.deadline < oldDeadline);
    }

    /** A push at the time for which the deadline was set. */
    method Add(r: Request, now: int, ghost clock: int, ghost e: seq<Request>)
      requires Valid(clock) && clock <= now && Represents(queue, e) && Pushed(r, now).Regular()
      modifies this
      ensures Valid(now) && Represents(queue, e + [r]) && multiset(queue) == multiset(old(queue)) + multiset{r}
    {
      ghost var before := queue;
      var _ := Push(r);
      PushRepresents(before, queue, e, r);
      SoundLater(before, clock, now);
      MultisetSubset(queue, before, r);
      PermutedSound(before, queue, now);
    }

    /** Goes through the queue in place; the stored deadlines stay, so the heap stays a heap. */
    method AckRequest(change: StateChange, newDeadlineDelta: int, now: int)
      modifies this
      ensures queue == AckAll(old(queue), Ack(change, newDeadlineDelta, now))
    {
      var newDeadline := if newDeadlineDelta == 0 then Nothing else Just(now + newDeadlineDelta);
      ghost var a := Ack(change, newDeadlineDelta, now);
      var i := 0;
      while i < |queue|
        invariant 0 <= i <= |queue| == |old(queue)|
        invariant forall j :: 0 <= j < i ==> queue[j] == Acked(old(queue)[j], a)
        invariant forall j :: i <= j < |queue| ==> queue[j] == old(queue)[j]
      {
        var req := queue[i];
        if req.command.target == change.state.id && req.TriggerType() == change.changeType
           && req.command.floor == change.changeFloor {
          if req.kind == NotAcknowledged {
            req := req.(kind := NotDone);
          } else if req.kind == NotDone {
            req := req.(kind := Done);
          }
          if newDeadline.Just? {
            req := req.(tweaked := newDeadline, delta := newDeadlineDelta);
          }
          req := req.(repeated := 0);
          queue := queue[i := req];
        }
        i := i + 1;
      }
    }

    method Acknowledge(change: StateChange, delta: int, now: int, ghost clock: int, ghost e: seq<Request>)
      requires Valid(clock) && clock <= now && Represents(queue, e) && (delta == 0 || delta == SERVICE)
      modifies this
      ensures Valid(now) && Represents(queue, EagerAck(e, Ack(change, delta, now)))
      ensures queue == AckAll(old(queue), Ack(change, delta, now))
    {
      ghost var before := queue;
      AckRequest(change, delta, now);
      AckRepresents(before, e, Ack(change, delta, now));
      AckKeepsHeap(before, Ack(change, delta, now));
      AckKeepsSound(before, Ack(change, delta, now), clock);
    }

    /** Does at the top of the queue what acknowledgements have only noted, until the top needs nothing. */
    method Clean(ghost clock: int)
      requires Valid(clock)
      modifies this
      ensures Valid(clock) && multiset(Live(queue)) == multiset(Live(old(queue)))
      ensures queue != [] ==> queue[0].kind != Done && queue[0].tweaked == Nothing
    {
      var cleaned := false;
      hide Work, Live, Heap, AllSound;
      while !cleaned
        invariant Valid(clock) && multiset(Live(queue)) == multiset(Live(old(queue)))
        invariant cleaned && queue != [] ==> queue[0].kind != Done && queue[0].tweaked == Nothing
        decreases Work(queue), !cleaned
      {
        cleaned := true;
        ghost var start := queue;
        while queue != [] && queue[0].kind == Done
          invariant Valid(clock) && multiset(Live(queue)) == multiset(Live(old(queue)))
          invariant if cleaned then queue == start else Work(queue) < Work(start)
          decreases Work(queue)
        {
          cleaned := false;
          DropDone(clock);
        }
        ghost var mid := queue;
        while queue != [] && queue[0].tweaked != Nothing
          invariant Valid(clock) && multiset(Live(queue)) == multiset(Live(old(queue)))
          invariant if cleaned then queue == start == mid else Work(queue) < Work(start)
          decreases Work(queue)
        {
          Reschedule(clock);
          cleaned := false;
        }
      }
    }

    method DropDone(ghost clock: int)
      requires Valid(clock) && queue != [] && queue[0].kind == Done
      modifies this
      ensures Valid(clock) && multiset(Live(queue)) == multiset(Live(old(queue))) && Work(queue) < Work(old(queue))
    {
      ghost var before := queue;
      queue := PopHeap(queue);
      DonePopped(before, queue, before[0]);
      MultisetSubset(before, queue, before[0]);
      PermutedSound(before, queue, clock);
    }

    /** A queued request's deadline is changed by taking the request out and putting it back. */
    method Reschedule(ghost clock: int)
      requires Valid(clock) && queue != [] && queue[0].tweaked.Just?
      modifies this
      ensures Valid(clock) && multiset(Live(queue)) == multiset(Live(old(queue))) && Work(queue) < Work(old(queue))
    {
      ghost var before := queue;
      var req := queue[0];
      queue := PopHeap(queue);
      ghost var popped := queue;
      req := req.(deadline := req.tweaked.value);
      req := req.(tweaked := Nothing);
      queue := PushHeap(queue, req);
      Rescheduled(before, popped, queue, before[0]);
      LessWork(before, popped, queue, before[0]);
      MultisetSubset(before, popped, before[0]);
      MultisetSubset(queue, popped, req);
      assert Sound(before[0], clock);
      PermutedSound(before, queue, clock);
    }

    /** One event of another thread, while the waiter sleeps. */
    method Perform(event: Event, ghost clock: int, ghost e: seq<Request>, ghost now: int)
      requires Valid(clock) && event.Regular() && clock <= event.At() && Represents(queue, e)
      requires now <= event.At() && AllLater(queue, now)
      modifies this
      ensures Valid(event.At()) && Represents(queue, EagerEvent(e, event)) && AllLater(queue, now)
    {
      ghost var before := queue;
      match event
      case Pushed(r, at) =>
        Add(r, at, clock, e);
        MultisetSubset(queue, before, r);
      case Reported(a) =>
        Acknowledge(a.change, a.delta, a.now, clock, e);
        AckKeepsLater(before, a, now);
    }

    method PerformAll(events: seq<Event>, ghost now: int, ghost until: int, ghost e: seq<Request>)
      requires Valid(now) && Timely(events, now, until) && Represents(queue, e) && AllLater(queue, now)
      modifies this
      ensures Valid(until) && Represents(queue, EagerRun(e, events)) && AllLater(queue, now)
    {
      var i := 0;
      ghost var clock := now;
      hide Represents, AllLater, EagerEvent;
      assert events[..0] == [];
      while i < |events|
        invariant 0 <= i <= |events|
        invariant now <= clock <= until && (i < |events| ==> clock <= events[i].At())
        invariant Valid(clock) && Represents(queue, EagerRun(e, events[..i])) && AllLater(queue, now)
      {
        assert events[..i + 1][..i] == events[..i];
        Perform(events[i], clock, EagerRun(e, events[..i]), now);
        clock := events[i].At();
        i := i + 1;
      }
      assert events[..i] == events;
      SoundLater(queue, clock, until);
    }

    /** Repairs the top, and says whether there is no reason to sleep. */
    method Look(d0: int, now: int, ghost e: seq<Request>) returns (due: bool)
      requires Valid(now) && Represents(queue, e)
      modifies this
      ensures Valid(now) && Represents(queue, e)
      ensures if due then queue != [] ==> queue[0].kind != Done && queue[0].tweaked == Nothing
              else AllLater(queue, now)
    {
      hide Heap, AllSound, AllLater, Live;
      Clean(now);
      var deadline := EarliestDeadline(d0);
      due := deadline <= now;
      if !due {
        TopLater(queue, now);
      }
    }

    /** Takes the request that is due first, if any is due. */
    method TakeDue(now: int, ghost clock: int, ghost e: seq<Request>) returns (result: Maybe<Request>)
      requires Valid(clock) && Represents(queue, e)
      requires AllLater(queue, now) || (queue != [] ==> queue[0].kind != Done && queue[0].tweaked == Nothing)
      modifies this
      ensures Valid(clock)
      ensures match result
              case Just(r) =>
                && r.kind != Done && r.tweaked == Nothing && r.deadline <= now
                && (r.delta == ANSWER || r.delta == SERVICE)
                && multiset(e) == multiset(Live(queue)) + multiset{r}
                && forall x :: x in Live(queue) ==> r.deadline <= x.deadline
              case Nothing => Represents(queue, e) && NoneDue(Live(queue), now)
    {
      hide Heap, AllSound, AllLater, Live, NoneDue;
      if queue != [] && queue[0].deadline <= now {
        NotLater(queue, now);
        ghost var before := queue;
        var val := queue[0];
        queue := PopHeap(queue);
        PopRepresents(before, queue, e, clock);
        MultisetSubset(before, queue, val);
        PermutedSound(before, queue, clock);
        SoundDelta(before, val, clock);
        return Just(val);
      }
      TopLater(queue, now);
      LaterNotDue(queue, clock, now);
      result := Nothing;
    }

    /** Waits for the first deadline, or until d0. The sleeps are those of this call; the last of them, if it
        comes to that, ends by running out of time, the others by a notification.

        What comes back needs no repair and is due first among all live requests; if nothing comes back,
        nothing was due at the last look at the clock. Either way the queue stands for what the events make
        of it when they take effect at once, less the request that was taken. */
    method WaitForEarliestDeadline(d0: int, sleeps: seq<Sleep>, ghost clock: int, ghost until: int)
      returns (result: Maybe<Request>, now: int, ghost slept: nat)
      requires sleeps != [] && Valid(clock) && TimelySleeps(sleeps, clock, until)
      modifies this
      ensures Valid(until)
      ensures slept <= |sleeps|
      ensures var meant := EagerRun(Live(old(queue)), Events(sleeps[..slept]));
              match result
              case Just(r) =>
                && r.kind != Done && r.tweaked == Nothing && r.deadline <= now
                && (r.delta == ANSWER || r.delta == SERVICE)
                && multiset(meant) == multiset(Live(queue)) + multiset{r}
                && forall x :: x in Live(queue) ==> r.deadline <= x.deadline
              case Nothing => Represents(queue, meant) && NoneDue(Live(queue), now)
    {
      var k := 0;
      now := sleeps[0].now;
      ghost var e := Live(queue);
      ghost var last := clock;
      var awake := false;
      hide Live, Heap, AllSound, AllLater, NoneDue, EagerEvent, EagerRun, Timely;
      assert Events(sleeps[..0]) == [] && EagerRun(e, []) == e by {
        EagerRunNone(e);
      }
      while k < |sleeps| && !awake
        invariant 0 <= k <= |sleeps|
        invariant clock <= last <= until && (k < |sleeps| ==> last <= sleeps[k].now)
        invariant Valid(last) && Represents(queue, EagerRun(e, Events(sleeps[..k])))
        invariant if awake then queue != [] ==> queue[0].kind != Done && queue[0].tweaked == Nothing
                  else k > 0 ==> AllLater(queue, now)
        decreases |sleeps| - k, !awake
      {
        now := sleeps[k].now;
        SoundLater(queue, last, now);
        last := now;
        var due := Look(d0, now, EagerRun(e, Events(sleeps[..k])));
        if due {
          awake := true;
        } else {
          ghost var next := NextLook(sleeps, k, until);
          TimelyNext(sleeps, k, clock, until);
          PerformAll(sleeps[k].events, now, next, EagerRun(e, Events(sleeps[..k])));
          EventsStep(sleeps, k, e);
          last := next;
          k := k + 1;
        }
      }
      slept := k;
      SoundLater(queue, last, until);
      result := TakeDue(now, until, EagerRun(e, Events(sleeps[..slept])));
    }
  }

  lemma EagerRunNone(e: seq<Request>)
    ensures EagerRun(e, []) == e
  {
  }

  lemma TimelyNext(sleeps: seq<Sleep>, k: nat, clock: int, until: int)
    requires k < |sleeps| && TimelySleeps(sleeps, clock, until)
    ensures Timely(sleeps[k].events, sleeps[k].now, NextLook(sleeps, k, until))
    ensures sleeps[k].now <= NextLook(sleeps, k, until) <= until
  {
    assert Timely(sleeps[k].events, sleeps[k].now, NextLook(sleeps, k, until));
  }

  lemma EventsStep(sleeps: seq<Sleep>, k: nat, e: seq<Request>)
    requires k < |sleeps|
    ensures EagerRun(e, Events(sleeps[..k + 1])) == EagerRun(EagerRun(e, Events(sleeps[..k])), sleeps[k].events)
  {
    assert sleeps[..k + 1][..k] == sleeps[..k];
    EagerRunConcat(e, Events(sleeps[..k]), sleeps[k].events);
  }

  lemma SoundDelta(c: seq<Request>, r: Request, clock: int)
    requires AllSound(c, clock) && r in c
    ensures r.delta == ANSWER || r.delta == SERVICE
  {
    assert Sound(r, clock);
  }

  lemma NotLater(c: seq<Request>, now: int)
    requires c != [] && c[0].deadline <= now
    ensures !AllLater(c, now)
  {
    assert c[0] in c;
  }

  lemma MultisetSubset(c: seq<Request>, h: seq<Request>, x: Request)
    requires multiset(c) == multiset(h) + multiset{x}
    ensures forall r :: r in c <==> r in h || r == x
  {
    forall r
      ensures r in c <==> r in h || r == x
    {
      assert r in c <==> r in multiset(c);
      assert r in h <==> r in multiset(h);
    }
  }
}
