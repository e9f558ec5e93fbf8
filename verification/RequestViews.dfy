/**
 A queue of requests as it is meant: without the requests that are done, and with every postponed deadline
 in force. The real queue repairs itself only at its top and only when someone waits for a request; this
 module says what its contents stand for, and that acknowledging in place is acknowledging at once.
*/
module RequestViews {
  import opened ElevatorTypes
  import opened Requests

  // ---- sequences element by element

  function FlatMap(c: seq<Request>, f: Request -> seq<Request>): seq<Request> {
    if c == [] then [] else FlatMap(c[..|c| - 1], f) + f(c[|c| - 1])
  }

  lemma {:induction false} FlatMapConcat(c: seq<Request>, d: seq<Request>, f: Request -> seq<Request>)
    ensures FlatMap(c + d, f) == FlatMap(c, f) + FlatMap(d, f)
  {
    if d == [] {
      assert c + d == c;
    } else {
      var n := |d| - 1;
      assert (c + d)[..|c + d| - 1] == c + d[..n];
      FlatMapConcat(c, d[..n], f);
    }
  }

  lemma FlatMapOne(x: Request, f: Request -> seq<Request>)
    ensures FlatMap([x], f) == f(x)
  {
    assert [x][..0] == [];
  }

  lemma FlatMapThree(p: seq<Request>, x: seq<Request>, q: seq<Request>, f: Request -> seq<Request>)
    ensures FlatMap(p + x + q, f) == FlatMap(p, f) + FlatMap(x, f) + FlatMap(q, f)
  {
    hide FlatMap;
    FlatMapConcat(p + x, q, f);
    FlatMapConcat(p, x, f);
  }

  lemma MiddleOut(p: seq<Request>, x: seq<Request>, q: seq<Request>)
    ensures multiset(p + x + q) == multiset(p + q) + multiset(x)
  {
  }

  lemma FlatMapWithout(c: seq<Request>, i: nat, f: Request -> seq<Request>)
    requires i < |c|
    ensures multiset(FlatMap(c, f)) == multiset(FlatMap(c[..i] + c[i + 1..], f)) + multiset(f(c[i]))
  {
    hide FlatMap;
    var p, x, q := c[..i], [c[i]], c[i + 1..];
    assert c == p + x + q;
    FlatMapThree(p, x, q, f);
    FlatMapOne(c[i], f);
    FlatMapConcat(p, q, f);
    MiddleOut(FlatMap(p, f), f(c[i]), FlatMap(q, f));
  }

  /** The order of a queue does not matter to what it stands for. */
  lemma {:induction false} FlatMapPermuted(c: seq<Request>, d: seq<Request>, f: Request -> seq<Request>)
    requires multiset(c) == multiset(d)
    ensures multiset(FlatMap(c, f)) == multiset(FlatMap(d, f))
  {
    if c == [] {
      assert |multiset(d)| == 0;
    } else {
      var n := |c| - 1;
      assert FlatMap(c, f) == FlatMap(c[..n], f) + f(c[n]);
      hide FlatMap;
      var i := SameElement(c, d);
      FlatMapPermuted(c[..n], d[..i] + d[i + 1..], f);
      FlatMapWithout(d, i, f);
    }
  }

  /** The last of one ordering, found and taken out of the other. */
  lemma SameElement(c: seq<Request>, d: seq<Request>) returns (i: nat)
    requires multiset(c) == multiset(d) && c != []
    ensures i < |d| && d[i] == c[|c| - 1]
    ensures multiset(c[..|c| - 1]) == multiset(d[..i] + d[i + 1..])
  {
    var n := |c| - 1;
    assert c[n] in multiset(d);
    i :| 0 <= i < |d| && d[i] == c[n];
    Removed(c, n);
    Removed(d, i);
    assert c[..n] + c[n + 1..] == c[..n];
  }

  lemma Removed(c: seq<Request>, i: nat)
    requires i < |c|
    ensures multiset(c[..i] + c[i + 1..]) == multiset(c) - multiset{c[i]}
  {
    assert c == c[..i] + [c[i]] + c[i + 1..];
  }

  lemma FlatMapPlus(c: seq<Request>, h: seq<Request>, x: Request, f: Request -> seq<Request>)
    requires multiset(c) == multiset(h) + multiset{x}
    ensures multiset(FlatMap(c, f)) == multiset(FlatMap(h, f)) + multiset(f(x))
  {
    FlatMapPermuted(c, h + [x], f);
    FlatMapConcat(h, [x], f);
    FlatMapOne(x, f);
  }

  lemma {:induction false} FlatMapMember(c: seq<Request>, f: Request -> seq<Request>, y: Request)
    ensures y in FlatMap(c, f) <==> exists i :: 0 <= i < |c| && y in f(c[i])
  {
    if c != [] {
      var n := |c| - 1;
      FlatMapMember(c[..n], f, y);
      if i :| 0 <= i < |c| && y in f(c[i]) {
        assert i == n || y in f(c[..n][i]);
      }
    }
  }

  // ---- what a queue stands for

  function LivePart(r: Request): seq<Request> {
    if r.kind == Done then [] else [r.(deadline := r.Effective(), tweaked := Nothing)]
  }

  function Live(c: seq<Request>): seq<Request> {
    FlatMap(c, LivePart)
  }

  // ---- acknowledging

  /** A report about an elevator, the postponement that goes with it, and the time. */
  datatype Ack = Ack(change: StateChange, delta: int, now: int)

  /** In place: the kind changes, a new deadline is only noted. */
  function Acked(r: Request, a: Ack): Request {
    if !r.AnsweredBy(a.change) then r
    else
      var kind := if r.kind == NotAcknowledged then NotDone else Done;
      if a.delta == 0 then r.(kind := kind, repeated := 0)
      else r.(kind := kind, repeated := 0, tweaked := Just(a.now + a.delta), delta := a.delta)
  }

  function AckAll(c: seq<Request>, a: Ack): (d: seq<Request>)
    ensures |d| == |c|
  {
    seq(|c|, i requires 0 <= i < |c| => Acked(c[i], a))
  }

  /** At once: a served call is gone, and a new deadline is in force. */
  function Progressed(r: Request, a: Ack): seq<Request> {
    if !r.AnsweredBy(a.change) then [r]
    else if r.kind == NotDone then []
    else if a.delta == 0 then [r.(kind := NotDone, repeated := 0)]
    else [r.(kind := NotDone, repeated := 0, deadline := a.now + a.delta, delta := a.delta)]
  }

  function Progress(a: Ack): Request -> seq<Request> {
    (r: Request) => Progressed(r, a)
  }

  function EagerAck(e: seq<Request>, a: Ack): seq<Request> {
    FlatMap(e, Progress(a))
  }

  lemma AnsweredAlike(r: Request, x: Request, change: StateChange)
    requires r.kind == x.kind && r.command == x.command
    ensures r.AnsweredBy(change) == x.AnsweredBy(change)
  {
  }

  lemma AckedPart(r: Request, a: Ack)
    ensures LivePart(Acked(r, a)) == FlatMap(LivePart(r), Progress(a))
  {
    if r.kind == Done {
      assert Acked(r, a).kind == Done;
      assert FlatMap([], Progress(a)) == [];
    } else {
      var x := r.(deadline := r.Effective(), tweaked := Nothing);
      FlatMapOne(x, Progress(a));
      AnsweredAlike(r, x, a.change);
      hide FlatMap, Request.AnsweredBy, Request.TriggerType;
      assert LivePart(r) == [x];
      assert LivePart(Acked(r, a)) == Progressed(x, a);
    }
  }

  /** Acknowledging in place does what acknowledging at once would do. */
  lemma {:induction false} AckIsEager(c: seq<Request>, a: Ack)
    ensures Live(AckAll(c, a)) == EagerAck(Live(c), a)
  {
    if c == [] {
    } else {
      var n := |c| - 1;
      AckIsEager(c[..n], a);
      AckedPart(c[n], a);
      FlatMapConcat(Live(c[..n]), LivePart(c[n]), Progress(a));
      assert AckAll(c, a)[..n] == AckAll(c[..n], a);
    }
  }

  // ---- the work that cleaning has to do

  function TweakedPart(r: Request): seq<Request> {
    if r.tweaked.Just? then [r] else []
  }

  /** Every request once, and once more when its deadline is still to be changed. */
  function Work(c: seq<Request>): nat {
    |c| + |FlatMap(c, TweakedPart)|
  }

  lemma DonePopped(c: seq<Request>, h: seq<Request>, x: Request)
    requires multiset(c) == multiset(h) + multiset{x} && x.kind == Done
    ensures multiset(Live(c)) == multiset(Live(h)) && Work(h) < Work(c)
  {
    FlatMapPlus(c, h, x, LivePart);
    FlatMapPlus(c, h, x, TweakedPart);
    Sizes(c, h, x);
    assert |multiset(FlatMap(c, TweakedPart))| >= |multiset(FlatMap(h, TweakedPart))|;
  }

  lemma Sizes(c: seq<Request>, h: seq<Request>, x: Request)
    requires multiset(c) == multiset(h) + multiset{x}
    ensures |c| == |h| + 1
  {
    assert |multiset(c)| == |c| && |multiset(h)| == |h|;
  }

  lemma Rescheduled(c: seq<Request>, h: seq<Request>, d: seq<Request>, x: Request)
    requires multiset(c) == multiset(h) + multiset{x} && x.tweaked.Just?
    requires multiset(d) == multiset(h) + multiset{x.(deadline := x.tweaked.value, tweaked := Nothing)}
    ensures multiset(Live(c)) == multiset(Live(d))
  {
    var y := x.(deadline := x.tweaked.value, tweaked := Nothing);
    assert LivePart(x) == LivePart(y);
    FlatMapPlus(c, h, x, LivePart);
    FlatMapPlus(d, h, y, LivePart);
  }

  lemma LessWork(c: seq<Request>, h: seq<Request>, d: seq<Request>, x: Request)
    requires multiset(c) == multiset(h) + multiset{x} && x.tweaked.Just?
    requires multiset(d) == multiset(h) + multiset{x.(deadline := x.tweaked.value, tweaked := Nothing)}
    ensures Work(d) < Work(c)
  {
    var y := x.(deadline := x.tweaked.value, tweaked := Nothing);
    FlatMapPlus(c, h, x, TweakedPart);
    FlatMapPlus(d, h, y, TweakedPart);
    Sizes(c, h, x);
    Sizes(d, h, y);
    hide FlatMap;
    Counted(FlatMap(c, TweakedPart), FlatMap(h, TweakedPart), [x]);
    Counted(FlatMap(d, TweakedPart), FlatMap(h, TweakedPart), []);
  }

  lemma Counted(c: seq<Request>, h: seq<Request>, x: seq<Request>)
    requires multiset(c) == multiset(h) + multiset(x)
    ensures |c| == |h| + |x|
  {
    assert |multiset(c)| == |c| && |multiset(h)| == |h| && |multiset(x)| == |x|;
  }

  // ---- deadlines

  /** A deadline lies no further ahead than the longest delay, and is only ever put off. */
  predicate Sound(r: Request, clock: int) {
    && (r.delta == ANSWER || r.delta == SERVICE)
    && r.deadline <= clock + SERVICE
    && (r.tweaked.Just? ==> r.deadline <= r.tweaked.value <= clock + SERVICE)
  }

  predicate AllSound(c: seq<Request>, clock: int) {
    forall r :: r in c ==> Sound(r, clock)
  }

  /** With deadlines only put off, a heap whose first request needs no repair has on top what is really due
      first. */
  lemma CleanTopIsNext(c: seq<Request>, clock: int)
    requires Heap(c) && AllSound(c, clock) && c != [] && c[0].kind != Done && c[0].tweaked == Nothing
    ensures c[0] in Live(c)
    ensures forall r :: r in Live(c) ==> c[0].deadline <= r.deadline
  {
    FlatMapMember(c, LivePart, c[0]);
    assert c[0] in LivePart(c[0]);
    forall r | r in Live(c)
      ensures c[0].deadline <= r.deadline
    {
      FlatMapMember(c, LivePart, r);
      var i :| 0 <= i < |c| && r in LivePart(c[i]);
      TopIsEarliest(c, i);
      assert Sound(c[i], clock);
    }
  }
}
