/** Hall calls that wait for an elevator's answer, and the heap that keeps the earliest deadline on top. */
module Requests {
  import opened ElevatorTypes

  datatype RequestType = NotAcknowledged | NotDone | Done

  // The two delays that the scheduler uses, in milliseconds: for an answer, and for serving the call.
  const ANSWER: int := 100
  const SERVICE: int := 30000

  /** A request. Changing the deadline of a queued request would break the heap, so an acknowledgement only
      notes the new one in `tweaked`. The last two fields record the past and decide nothing: which call
      this is, and how many reports had been processed when it was given to its elevator. */
  datatype Request = Request(kind: RequestType, repeated: int, command: Command, delta: int, deadline: int,
                             tweaked: Maybe<int>, call: nat, since: nat) {

    function TriggerType(): ChangeType {
      match command.commandType
      case CallToFloorAndGoUp => if kind == NotAcknowledged then GoingToServeUp else ServedUp
      case CallToFloorAndGoDown => if kind == NotAcknowledged then GoingToServeDown else ServedDown
      case _ => NoChange
    }

    predicate AnsweredBy(change: StateChange) {
      && command.target == change.state.id
      && TriggerType() == change.changeType
      && command.floor == change.changeFloor
    }

    /** The deadline that the request is meant to have. */
    function Effective(): int {
      if tweaked.Just? then tweaked.value else deadline
    }
  }

  /** A new request for a call, at a time. */
  function NewRequest(command: Command, delta: int, now: int, call: nat, since: nat): Request {
    Request(NotAcknowledged, 0, command, delta, now + delta, Nothing, call, since)
  }

  // ---- the heap

  function Up(j: nat): nat
    requires j > 0
    ensures Up(j) < j
  {
    (j - 1) / 2
  }

  predicate InPlace(h: seq<Request>, j: nat)
    requires j < |h|
  {
    j > 0 ==> h[Up(j)].deadline <= h[j].deadline
  }

  predicate Heap(h: seq<Request>) {
    forall j: nat :: j < |h| ==> InPlace(h, j)
  }

  /** The first request of a heap has the earliest deadline. */
  lemma {:induction false} TopIsEarliest(h: seq<Request>, j: nat)
    requires Heap(h) && j < |h|
    ensures h[0].deadline <= h[j].deadline
  {
    if j > 0 {
      assert InPlace(h, j);
      TopIsEarliest(h, Up(j));
    }
  }

  function Swap(h: seq<Request>, i: nat, j: nat): (s: seq<Request>)
    requires i < |h| && j < |h|
    ensures |s| == |h| && multiset(s) == multiset(h)
    ensures forall k :: 0 <= k < |h| ==> s[k] == h[if k == i then j else if k == j then i else k]
  {
    h[i := h[j]][j := h[i]]
  }

  predicate SiftingUp(h: seq<Request>, i: nat) {
    && i < |h|
    && (forall j: nat :: j < |h| && j != i ==> InPlace(h, j))
    && (forall j: nat :: 0 < j < |h| && Up(j) == i && i > 0 ==> h[Up(i)].deadline <= h[j].deadline)
  }

  lemma SiftUpStep(h: seq<Request>, i: nat)
    requires SiftingUp(h, i) && i > 0 && h[Up(i)].deadline > h[i].deadline
    ensures SiftingUp(Swap(h, i, Up(i)), Up(i))
  {
    var p := Up(i);
    var s := Swap(h, i, p);
    forall j: nat | j < |h| && j != p
      ensures InPlace(s, j)
    {
      assert InPlace(h, j) || j == i;
      assert InPlace(h, p);
    }
    forall j: nat | 0 < j < |h| && Up(j) == p && p > 0
      ensures s[Up(p)].deadline <= s[j].deadline
    {
      assert InPlace(h, p);
      assert InPlace(h, j) || j == i;
    }
  }

  method PushHeap(c: seq<Request>, r: Request) returns (h: seq<Request>)
    requires Heap(c)
    ensures Heap(h) && multiset(h) == multiset(c) + multiset{r}
  {
    h := c + [r];
    var i: nat := |c|;
    assert SiftingUp(h, i) by {
      forall j: nat | j < |h| && j != i
        ensures InPlace(h, j)
      {
        assert InPlace(c, j);
      }
    }
    while i > 0 && h[(i - 1) / 2].deadline > h[i].deadline
      invariant SiftingUp(h, i)
      invariant multiset(h) == multiset(c) + multiset{r}
    {
      SiftUpStep(h, i);
      h := Swap(h, i, (i - 1) / 2);
      i := (i - 1) / 2;
    }
  }

  predicate SiftingDown(h: seq<Request>, i: nat) {
    && (forall j: nat :: j < |h| && (j == 0 || Up(j) != i) ==> InPlace(h, j))
    && (forall j: nat :: 0 < j < |h| && Up(j) == i && 0 < i < |h| ==> h[Up(i)].deadline <= h[j].deadline)
  }

  lemma SiftDownStep(h: seq<Request>, i: nat, m: nat)
    requires SiftingDown(h, i) && 0 < m < |h| && Up(m) == i
    requires forall j: nat :: 0 < j < |h| && Up(j) == i ==> h[m].deadline <= h[j].deadline
    requires h[m].deadline < h[i].deadline
    ensures SiftingDown(Swap(h, i, m), m)
  {
    var s := Swap(h, i, m);
    forall j: nat | j < |h| && (j == 0 || Up(j) != m)
      ensures InPlace(s, j)
    {
      assert j == 0 || Up(j) == i || InPlace(h, j);
      if j == i && i > 0 {
        assert h[Up(i)].deadline <= h[m].deadline;
      }
    }
    forall j: nat | 0 < j < |h| && Up(j) == m
      ensures s[Up(m)].deadline <= s[j].deadline
    {
      assert InPlace(h, j);
    }
  }

  lemma SiftDownEnd(h: seq<Request>, i: nat)
    requires SiftingDown(h, i)
    requires forall j: nat :: 0 < j < |h| && Up(j) == i ==> h[i].deadline <= h[j].deadline
    ensures Heap(h)
  {
    forall j: nat | j < |h|
      ensures InPlace(h, j)
    {
      assert j == 0 || Up(j) == i || InPlace(h, j);
    }
  }

  /** The hole that a popped top leaves is filled from the end. */
  lemma TopReplaced(c: seq<Request>, h: seq<Request>)
    requires Heap(c) && |c| > 1 && h == c[..|c| - 1][0 := c[|c| - 1]]
    ensures SiftingDown(h, 0)
    ensures multiset(c) == multiset(h) + multiset{c[0]}
  {
    var n := |c| - 1;
    assert c == [c[0]] + c[1..n] + [c[n]];
    assert h == [c[n]] + c[1..n];
    forall j: nat | j < |h| && (j == 0 || Up(j) != 0)
      ensures InPlace(h, j)
    {
      assert InPlace(c, j);
    }
  }

  /** The earlier of the children, of which the second may be missing. */
  lemma EarlierChild(h: seq<Request>, i: nat, m: nat)
    requires 2 * i + 1 < |h|
    requires m == if 2 * i + 2 < |h| && h[2 * i + 2].deadline < h[2 * i + 1].deadline then 2 * i + 2 else 2 * i + 1
    ensures Up(m) == i && forall j: nat :: 0 < j < |h| && Up(j) == i ==> h[m].deadline <= h[j].deadline
  {
    assert forall j: nat :: 0 < j && Up(j) == i ==> j == 2 * i + 1 || j == 2 * i + 2;
  }

  lemma NoChildren(h: seq<Request>, i: nat)
    requires |h| <= 2 * i + 1
    ensures forall j: nat :: 0 < j < |h| ==> Up(j) != i
  {
  }

  method PopHeap(c: seq<Request>) returns (h: seq<Request>)
    requires Heap(c) && c != []
    ensures Heap(h) && multiset(c) == multiset(h) + multiset{c[0]}
  {
    var n := |c| - 1;
    if n == 0 {
      assert c == [c[0]];
      return [];
    }
    h := c[..n][0 := c[n]];
    TopReplaced(c, h);
    var i: nat := 0;
    hide SiftingDown, Heap;
    while 2 * i + 1 < n
      invariant |h| == n && i < n
      invariant SiftingDown(h, i)
      invariant multiset(c) == multiset(h) + multiset{c[0]}
      decreases n - i
    {
      var m := 2 * i + 1;
      if m + 1 < n && h[m + 1].deadline < h[m].deadline {
        m := m + 1;
      }
      EarlierChild(h, i, m);
      if h[i].deadline <= h[m].deadline {
        SiftDownEnd(h, i);
        return;
      }
      SiftDownStep(h, i, m);
      h := Swap(h, i, m);
      i := m;
    }
    NoChildren(h, i);
    SiftDownEnd(h, i);
  }
}
