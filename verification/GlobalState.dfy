/** What one node knows about all elevators. */
module GlobalStates {
  import opened ElevatorTypes
  import opened SessionPeers

  /** The button sets are the union over the known elevators. */
  predicate UnionOf(buttons: set<int>, elevators: map<int, ElevatorState>, of: ElevatorState -> set<int>) {
    && (forall k :: k in elevators ==> of(elevators[k]) <= buttons)
    && (forall f :: f in buttons ==> exists k :: k in elevators && f in of(elevators[k]))
  }

  /** Under each key the state that carries this id. */
  predicate Keyed(elevators: map<int, ElevatorState>) {
    forall k :: k in elevators ==> elevators[k].id == k
  }

  lemma UnionMeans(buttons: set<int>, elevators: map<int, ElevatorState>, of: ElevatorState -> set<int>)
    requires UnionOf(buttons, elevators, of)
    ensures forall f :: f in buttons <==> exists k :: k in elevators && f in of(elevators[k])
  {
  }

  const ups: ElevatorState -> set<int> := (e: ElevatorState) => e.up
  const downs: ElevatorState -> set<int> := (e: ElevatorState) => e.down

  lemma OneMore(buttons: set<int>, done: map<int, ElevatorState>, k: int, e: ElevatorState,
                of: ElevatorState -> set<int>)
    requires k !in done && UnionOf(buttons, done, of)
    ensures UnionOf(buttons + of(e), done[k := e], of)
  {
    var more := done[k := e];
    forall f | f in buttons + of(e)
      ensures exists j :: j in more && f in of(more[j])
    {
      if f in of(e) {
        assert k in more && more[k] == e;
      } else {
        var j :| j in done && f in of(done[j]);
        assert j in more && more[j] == done[j];
      }
    }
  }

  class GlobalState {
    var upButtons: set<int>
    var downButtons: set<int>
    var elevators: map<int, ElevatorState>

    ghost predicate Valid()
      reads this
    {
      && Keyed(elevators)
      && UnionOf(upButtons, elevators, ups)
      && UnionOf(downButtons, elevators, downs)
    }

    constructor ()
      ensures Valid() && elevators == map[]
    {
      upButtons, downButtons, elevators := {}, {}, map[];
    }

    method Update(state: ElevatorState)
      requires Valid()
      modifies this
      ensures Valid() && elevators == old(elevators)[state.id := state]
    {
      elevators := elevators[state.id := state];
      UpdateButtons();
    }

    /** Both sets are rebuilt from scratch, so a button that nobody reports any more disappears. */
    method UpdateButtons()
      requires Keyed(elevators)
      modifies `upButtons, `downButtons
      ensures Valid()
      ensures forall f :: f in upButtons <==> exists k :: k in elevators && f in elevators[k].up
      ensures forall f :: f in downButtons <==> exists k :: k in elevators && f in elevators[k].down
    {
      upButtons, downButtons := {}, {};
      assert UnionOf({}, map[], ups) && UnionOf({}, map[], downs);
      var rest := elevators.Keys;
      ghost var done: map<int, ElevatorState> := map[];
      hide UnionOf;
      while rest != {}
        invariant rest <= elevators.Keys
        invariant done == map k | k in elevators && k !in rest :: elevators[k]
        invariant UnionOf(upButtons, done, ups) && UnionOf(downButtons, done, downs)
        decreases |rest|
      {
        Inhabited(rest);
        var k :| k in rest;
        OneMore(upButtons, done, k, elevators[k], ups);
        OneMore(downButtons, done, k, elevators[k], downs);
        upButtons := upButtons + elevators[k].up;
        downButtons := downButtons + elevators[k].down;
        rest := rest - {k};
        done := done[k := elevators[k]];
      }
      assert done == elevators;
      UnionMeans(upButtons, elevators, ups);
      UnionMeans(downButtons, elevators, downs);
    }

    method Has(i: int) returns (b: bool)
      ensures b <==> i in elevators
    {
      b := i in elevators;
    }

    /** The state sent to a restarted elevator is the one it published under its own id. */
    method Get(i: int) returns (state: ElevatorState)
      requires Valid() && i in elevators
      ensures state == elevators[i] && state.id == i
    {
      state := elevators[i];
    }
  }
}
