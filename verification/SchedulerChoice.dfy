/** Which elevator gets a call. */
module SchedulerChoice {
  import opened ElevatorTypes
  import opened GlobalStates
  import opened SessionPeers

  // Milliseconds since the last report: 1.2 and 3 keep-alive periods of 500.
  const OUTDATED: int := 600
  const DEAD: int := 1500

  predicate Fresh(s: ElevatorState, now: int) {
    now - s.timestamp <= DEAD
  }

  function Abs(x: int): int { if x < 0 then -x else x }

  /** The elevator is on its way to the floor, and may stop there for this call. */
  predicate OnItsWay(s: ElevatorState, kind: ButtonType, floor: int, b: Bounds) {
    || (s.direction == Up && ((kind == CallUp && floor > s.lastFloor) || floor == b.max))
    || (s.direction == Down && ((kind == CallDown && floor < s.lastFloor) || floor == b.min))
  }

  /** The distance with its penalties, as the scheduler adds them up. */
  function Distance(s: ElevatorState, kind: ButtonType, floor: int, now: int, b: Bounds): int {
    Abs(s.lastFloor - floor)
    + (if now - s.timestamp > OUTDATED then 10 * (b.max - b.min) else 0)
    + (if s.stopped then 10 * (b.max - b.min) else 0)
    + (if OnItsWay(s, kind, floor, b) then b.max - b.min + 1
       else if s.direction != None then 2 * (b.max - b.min + 1) else 0)
  }

  predicate Candidate(elevators: map<int, ElevatorState>, k: int, kind: ButtonType, floor: int, now: int, b: Bounds) {
    k in elevators && Fresh(elevators[k], now) && Distance(elevators[k], kind, floor, now, b) < INT_MAX
  }

  predicate Optimal(elevators: map<int, ElevatorState>, id: int, kind: ButtonType, floor: int, now: int, b: Bounds) {
    && Candidate(elevators, id, kind, floor, now, b)
    && forall k :: k in elevators && Candidate(elevators, k, kind, floor, now, b) ==>
         Distance(elevators[id], kind, floor, now, b) <= Distance(elevators[k], kind, floor, now, b)
  }

  predicate NoneToChoose(elevators: map<int, ElevatorState>, kind: ButtonType, floor: int, now: int, b: Bounds) {
    forall k :: k in elevators ==> !Candidate(elevators, k, kind, floor, now, b)
  }

  lemma CandidateMeans(elevators: map<int, ElevatorState>, k: int, kind: ButtonType, floor: int, now: int, b: Bounds)
    requires k in elevators
    ensures Candidate(elevators, k, kind, floor, now, b)
       <==> now - elevators[k].timestamp <= DEAD && Distance(elevators[k], kind, floor, now, b) < INT_MAX
  {
    hide Distance;
  }

  lemma Penalties(s: ElevatorState, kind: ButtonType, floor: int, b: Bounds)
    ensures Abs(s.lastFloor - floor) == if s.lastFloor - floor < 0 then floor - s.lastFloor else s.lastFloor - floor
    ensures OnItsWay(s, kind, floor, b)
       <==> (s.direction == Up && ((kind == CallUp && floor > s.lastFloor) || floor == b.max))
            || (s.direction == Down && ((kind == CallDown && floor < s.lastFloor) || floor == b.min))
  {
  }

  /** Goes through the known elevators in any order. NO_ID stands for the failed assertion. */
  method OptimalElevator(elevators: map<int, ElevatorState>, kind: ButtonType, floor: int, now: int, b: Bounds)
    returns (minId: int)
    requires Keyed(elevators) && NO_ID !in elevators
    ensures minId == NO_ID ==> NoneToChoose(elevators, kind, floor, now, b)
    ensures minId != NO_ID ==> Optimal(elevators, minId, kind, floor, now, b)
  {
    hide Candidate, OnItsWay, Abs;
    var minDistance := INT_MAX;
    minId := NO_ID;
    var rest := elevators.Keys;
    while rest != {}
      invariant rest <= elevators.Keys
      invariant minDistance <= INT_MAX && (minId == NO_ID ==> minDistance == INT_MAX)
      invariant minId != NO_ID ==>
        && minId in elevators && Candidate(elevators, minId, kind, floor, now, b)
        && minDistance == Distance(elevators[minId], kind, floor, now, b)
      invariant forall k :: k in elevators && k !in rest && Candidate(elevators, k, kind, floor, now, b) ==>
        minDistance <= Distance(elevators[k], kind, floor, now, b)
      decreases |rest|
    {
      Inhabited(rest);
      var k :| k in rest;
      rest := rest - {k};
      var state := elevators[k];
      CandidateMeans(elevators, k, kind, floor, now, b);
      Penalties(state, kind, floor, b);
      var age := now - state.timestamp;
      var dist := if state.lastFloor - floor < 0 then floor - state.lastFloor else state.lastFloor - floor;
      if age > OUTDATED {
        dist := dist + 10 * (b.max - b.min);
      }
      if age > DEAD {
        continue;
      }
      if state.stopped {
        dist := dist + 10 * (b.max - b.min);
      }
      if (state.direction == Up && ((kind == CallUp && floor > state.lastFloor) || floor == b.max))
         || (state.direction == Down && ((kind == CallDown && floor < state.lastFloor) || floor == b.min)) {
        dist := dist + (b.max - b.min + 1);
      } else if state.direction != None {
        dist := dist + 2 * (b.max - b.min + 1);
      }
      assert dist == Distance(state, kind, floor, now, b);
      hide Distance;
      if dist < minDistance {
        minDistance := dist;
        minId := state.id;
      }
    }
    forall k | k in elevators {
      CandidateMeans(elevators, k, kind, floor, now, b);
    }
  }

  // ---- what the penalties amount to

  /** How many of these apply: not heard of lately, stopped. */
  function Doubts(s: ElevatorState, now: int): int {
    (if now - s.timestamp > OUTDATED then 1 else 0) + (if s.stopped then 1 else 0)
  }

  /** 0 for an idle elevator, 1 for one that comes by anyway, 2 for a busy one. */
  function Business(s: ElevatorState, kind: ButtonType, floor: int, b: Bounds): int {
    if OnItsWay(s, kind, floor, b) then 1 else if s.direction != None then 2 else 0
  }

  lemma AtLeast(n: int, k: int)
    requires n > 0 && k > 0
    ensures n * k >= n
  {
    assert n * k == n + n * (k - 1);
  }

  lemma Lower(n: int, p: int, x: int, q: int, y: int)
    requires 0 <= x < n && 0 <= y < n && p < q
    ensures n * p + x < n * q + y
  {
    AtLeast(n, q - p);
    assert n * (q - p) == n * q - n * p;
  }

  /** Numbers of two digits in base n compare digit by digit. */
  lemma HighDigit(n: int, p: int, x: int, q: int, y: int)
    requires 0 <= x < n && 0 <= y < n
    ensures n * p + x < n * q + y <==> p < q || (p == q && x < y)
  {
    if p < q {
      Lower(n, p, x, q, y);
    } else if p > q {
      Lower(n, q, y, p, x);
    }
  }

  lemma Digits(span: int, p: int, c: int, d: int, q: int, e: int, f: int)
    requires span > 0 && 0 <= c <= 2 && 0 <= e <= 2 && 0 <= d <= span && 0 <= f <= span
    ensures 10 * span * p + c * (span + 1) + d < 10 * span * q + e * (span + 1) + f
       <==> p < q || (p == q && (c < e || (c == e && d < f)))
  {
    HighDigit(span + 1, c, d, e, f);
    var x, y := c * (span + 1) + d, e * (span + 1) + f;
    assert 0 <= x < 10 * span && 0 <= y < 10 * span by {
      Upto(c, span);
      Upto(e, span);
    }
    HighDigit(10 * span, p, x, q, y);
  }

  lemma Upto(c: int, span: int)
    requires span > 0 && 0 <= c <= 2
    ensures 0 <= c * (span + 1) <= 2 * span + 2
  {
    assert c == 0 || c == 1 || c == 2;
  }

  /** Inside the shaft the penalties never mix: an elevator is nearer than another if it has fewer doubts,
      or as many and is less busy, or is as busy and closer to the floor. */
  lemma ChoiceIsLexicographic(s: ElevatorState, t: ElevatorState, kind: ButtonType, floor: int, now: int, b: Bounds)
    requires b.min < b.max && b.Has(floor) && b.Has(s.lastFloor) && b.Has(t.lastFloor)
    ensures var p, q := Doubts(s, now), Doubts(t, now);
            var c, e := Business(s, kind, floor, b), Business(t, kind, floor, b);
            Distance(s, kind, floor, now, b) < Distance(t, kind, floor, now, b)
            <==> p < q || (p == q && (c < e || (c == e && Abs(s.lastFloor - floor) < Abs(t.lastFloor - floor))))
  {
    Digits(b.max - b.min, Doubts(s, now), Business(s, kind, floor, b), Abs(s.lastFloor - floor),
           Doubts(t, now), Business(t, kind, floor, b), Abs(t.lastFloor - floor));
    DistanceDigits(s, kind, floor, now, b);
    DistanceDigits(t, kind, floor, now, b);
    hide Distance, Doubts, Business;
  }

  lemma DistanceDigits(s: ElevatorState, kind: ButtonType, floor: int, now: int, b: Bounds)
    ensures Distance(s, kind, floor, now, b)
         == 10 * (b.max - b.min) * Doubts(s, now) + Business(s, kind, floor, b) * (b.max - b.min + 1)
            + Abs(s.lastFloor - floor)
    ensures 0 <= Doubts(s, now) <= 2 && 0 <= Business(s, kind, floor, b) <= 2
  {
    hide OnItsWay;
  }

  /** In a shaft of at most 64 floors the search comes back empty exactly when no state is fresh. */
  lemma FreshMeansCandidate(elevators: map<int, ElevatorState>, kind: ButtonType, floor: int, now: int, b: Bounds)
    requires 0 < b.max - b.min < 64 && b.Has(floor)
    requires forall k :: k in elevators ==> b.Has(elevators[k].lastFloor)
    ensures NoneToChoose(elevators, kind, floor, now, b) <==> forall k :: k in elevators ==> !Fresh(elevators[k], now)
  {
    forall k | k in elevators
      ensures Candidate(elevators, k, kind, floor, now, b) <==> Fresh(elevators[k], now)
    {
      assert Distance(elevators[k], kind, floor, now, b) <= 64 + 640 + 640 + 128;
    }
  }
}
