/** The session manager of one node, step by step the node of SessionProtocol. */
module SessionManagers {
  import opened ElevatorTypes
  import opened GlobalStates
  import opened SessionPeers
  import opened SessionProtocol

  class SessionManager {
    const state: GlobalState
    var initPhase: int
    var peers: set<int>
    var barrier: set<int>
    var id: Maybe<int>
    var recoveryState: Maybe<ElevatorState>

    ghost function Snapshot(): Node
      reads this, state
    {
      Node(initPhase, peers, barrier, id, recoveryState, Nothing, state.elevators)
    }

    constructor (state: GlobalState)
      ensures this.state == state
      ensures Snapshot() == FRESH.(states := state.elevators)
    {
      this.state := state;
      initPhase, peers, barrier, id, recoveryState := 0, {}, {}, Nothing, Nothing;
    }

    /** One round of the sender, which runs beside the listener. */
    method InitSend() returns (body: Body)
      requires 0 <= initPhase < 2
      ensures body == Sent(Snapshot())
    {
      match initPhase
      case 0 => body := Initial;
      case 1 => body := Ready;
    }

    /** One round of the listener. */
    method InitListen(count: int, source: int, body: Body)
      requires state.Valid()
      modifies this, state
      ensures state.Valid()
      ensures Snapshot() == Listen(old(Snapshot()), count, source, body)
    {
      match body {
      case Initial =>
        peers := peers + {source};
      case Ready =>
        peers := peers + {source};
        barrier := barrier + {source};
      case RecoveryPeers(recovered) =>
        peers := recovered;
        barrier := peers;
        initPhase := 2;
      case RecoveryState(recovered, others) =>
        state.Update(recovered);
        recoveryState := Just(recovered);
        peers := others;
        barrier := peers;
        initPhase := 2;
      case _ =>
      }
      if |barrier| == count {
        initPhase := 2;
      } else if |peers| == count {
        initPhase := 1;
      }
    }

    /** Walks the peers in order to the first address of this machine. */
    method AssignId(localAddrs: set<int>)
      requires id == Nothing
      modifies this`id
      ensures Snapshot() == SessionProtocol.AssignId(old(Snapshot()), localAddrs)
    {
      var i, rest := 0, peers;
      hide Rank, Least, InOrder;
      assert InOrder(peers, peers, 0) by {
        NothingPassed(peers);
      }
      while rest != {}
        invariant rest <= peers && id == Nothing
        invariant InOrder(peers, rest, i)
        invariant (peers - rest) !! localAddrs
        decreases |rest|
      {
        var addr := First(rest);
        if addr in localAddrs {
          FirstLocal(peers, rest, i, addr, localAddrs);
          id := Just(i);
          return;
        }
        PassOne(peers, rest, i, addr);
        i := i + 1;
        rest := rest - {addr};
      }
      assert peers - {} == peers;
    }

    /** A connected node's answer to an Initial packet. */
    method Help(source: int) returns (answer: Maybe<Body>)
      requires state.Valid()
      ensures answer == SessionProtocol.Help(Snapshot(), source)
    {
      var i, rest, found := 0, peers, false;
      hide Rank, InOrder;
      assert InOrder(peers, peers, 0) by {
        NothingPassed(peers);
      }
      while rest != {} && !found
        invariant rest <= peers
        invariant InOrder(peers, rest, i)
        invariant source !in peers - rest
        invariant found ==> source in peers && i == Rank(peers, source)
        decreases |rest|, !found
      {
        var addr := First(rest);
        if addr == source {
          RankInOrder(peers, rest, i, addr);
          found := true;
        } else {
          PassOne(peers, rest, i, addr);
          i := i + 1;
          rest := rest - {addr};
        }
      }
      if !found {
        assert source !in peers;
        return Nothing;
      }
      var known := state.Has(i);
      if known {
        var s := state.Get(i);
        answer := Just(RecoveryState(s, peers));
      } else {
        answer := Just(RecoveryPeers(peers));
      }
    }
  }

  /** The loops have passed i peers, and those that remain come later. */
  predicate InOrder(peers: set<int>, rest: set<int>, i: int) {
    i == |peers - rest| && forall x, y :: x in peers - rest && y in rest ==> x < y
  }

  lemma NothingPassed(peers: set<int>)
    ensures InOrder(peers, peers, 0)
  {
    assert peers - peers == {};
  }

  lemma PassOne(peers: set<int>, rest: set<int>, i: int, a: int)
    requires rest <= peers && InOrder(peers, rest, i) && a in rest
    requires forall x :: x in rest ==> a <= x
    ensures InOrder(peers, rest - {a}, i + 1)
    ensures peers - (rest - {a}) == (peers - rest) + {a}
  {
    assert peers - (rest - {a}) == (peers - rest) + {a};
  }

  /** The first of the addresses not yet passed has as its rank the number of those passed. */
  lemma RankInOrder(peers: set<int>, rest: set<int>, i: int, a: int)
    requires rest <= peers && InOrder(peers, rest, i) && a in rest
    requires forall x :: x in rest ==> a <= x
    ensures Rank(peers, a) == i
  {
    assert (set p | p in peers && p < a) == peers - rest;
  }

  lemma FirstLocal(peers: set<int>, rest: set<int>, i: int, a: int, local: set<int>)
    requires rest <= peers && InOrder(peers, rest, i) && a in rest && a in local
    requires forall x :: x in rest ==> a <= x
    requires (peers - rest) !! local
    ensures Rank(peers, a) == i
    ensures peers * local != {} && Least(peers * local) == a
  {
    RankInOrder(peers, rest, i, a);
    assert a in peers * local;
    assert forall p :: p in peers * local ==> p in rest;
  }
}
