/**
 The transaction manager of the commit exercise: a protected object with one queued entry. A protected
 action runs the entry body for a caller, looks at the barrier again, and goes on serving queued callers
 until the barrier is closed (section 9.5.3 of the Ada Reference Manual).
*/
module CommitManager {

  /** The protected data, and the callers waiting at `Finished` in order of arrival. */
  datatype Manager = Manager(n: nat, gateOpen: bool, aborted: bool, willCommit: bool, queue: seq<nat>) {

    predicate Barrier() {
      gateOpen || |queue| == n
    }

    /** The body of the entry; the caller it runs for has left the queue. */
    function Body(): Manager {
      var opens := |queue| == n - 1;
      var closes := |queue| == 0;
      this.(gateOpen := (gateOpen || opens) && !closes,
            willCommit := (willCommit || opens) && !aborted,
            aborted := aborted && !closes)
    }

    /** Serves the queue while the barrier is open; returns who left the entry, in order. */
    function Drain(): (Manager, seq<nat>)
      decreases |queue|
    {
      if queue != [] && Barrier() then
        var (m, released) := this.(queue := queue[1..]).Body().Drain();
        (m, [queue[0]] + released)
      else
        (this, [])
    }

    /** A call of `Finished`: served at once when the entry is open, queued otherwise. */
    function Call(w: nat): (Manager, seq<nat>) {
      if Barrier() then
        var (m, released) := Body().Drain();
        (m, [w] + released)
      else
        this.(queue := queue + [w]).Drain()
    }
  }

  /** Once the gate is open the whole queue is served: the gate closes behind the last caller, the abort
      flag is cleared, and the decision is the one that the abort flag dictates. */
  lemma {:induction false} OpenGateEmptiesQueue(m: Manager)
    requires m.gateOpen && 0 < |m.queue| < m.n
    ensures m.Drain() == (Manager(m.n, false, false, m.willCommit && !m.aborted, []), m.queue)
    decreases |m.queue|
  {
    var next := m.(queue := m.queue[1..]).Body();
    if |m.queue| == 1 {
      assert next.Drain() == (next, []);
    } else {
      OpenGateEmptiesQueue(next);
    }
    assert m.queue == [m.queue[0]] + m.queue[1..];
  }

  /** The call that completes the queue releases everybody, and the decision is to commit exactly when
      nobody signalled abort since the last release. */
  lemma LastCallReleasesAll(m: Manager, w: nat)
    requires !m.gateOpen && |m.queue| == m.n - 1
    ensures m.Call(w) == (Manager(m.n, false, false, !m.aborted, []), m.queue + [w])
  {
    var full := m.(queue := m.queue + [w]);
    var next := full.(queue := full.queue[1..]).Body();
    if m.n == 1 {
      SingleCall(m, w);
    } else {
      OpenGateEmptiesQueue(next);
      assert full.queue == [full.queue[0]] + full.queue[1..];
    }
  }

  /** With one worker each call opens the gate and closes it again. */
  lemma SingleCall(m: Manager, w: nat)
    requires !m.gateOpen && m.n == 1 && |m.queue| == 0
    ensures m.Call(w) == (Manager(1, false, false, !m.aborted, []), m.queue + [w])
  {
    assert m.queue == [] && m.queue + [w] == [w];
    var full := m.(queue := m.queue + [w]);
    assert full.queue != [] && full.queue[0] == w && full.queue[1..] == [];
    var next := full.(queue := full.queue[1..]).Body();
    assert next == Manager(1, false, false, !m.aborted, []);
    assert next.Drain() == (next, []);
    assert full.Drain() == (next, [w] + []);
    assert [w] + [] == [w];
    assert m.Call(w) == full.Drain();
  }

  /** Any earlier call waits, and changes nothing but the queue. */
  lemma EarlierCallWaits(m: Manager, w: nat)
    requires !m.gateOpen && |m.queue| < m.n - 1
    ensures m.Call(w) == (m.(queue := m.queue + [w]), [])
  {
  }

  lemma DrainIs(m: Manager)
    ensures m.queue != [] && m.Barrier() ==>
              var (rest, released) := m.(queue := m.queue[1..]).Body().Drain();
              m.Drain() == (rest, [m.queue[0]] + released)
    ensures !(m.queue != [] && m.Barrier()) ==> m.Drain() == (m, [])
  {
  }

  lemma BodyKeepsQueue(m: Manager)
    ensures m.Body().queue == m.queue
  {
  }

  lemma CallIs(m: Manager, w: nat)
    ensures var (n, released) := m.Body().Drain();
            m.Call(w) == if m.Barrier() then (n, [w] + released) else m.(queue := m.queue + [w]).Drain()
  {
    hide Manager.Drain, Manager.Body;
  }

  /** The protected object. Each method is one protected action. */
  class TransactionManager {
    const n: nat
    var finishedGateOpen: bool
    var aborted: bool
    var willCommit: bool
    var finishedQueue: seq<nat>

    ghost function State(): Manager
      reads this
    {
      Manager(n, finishedGateOpen, aborted, willCommit, finishedQueue)
    }

    constructor (n: nat)
      requires n > 0
      ensures State() == Manager(n, false, false, true, [])
    {
      this.n := n;
      finishedGateOpen, aborted, willCommit, finishedQueue := false, false, true, [];
    }

    /** The statements of the entry body. */
    method ExecuteFinished()
      modifies this
      ensures State() == old(State()).Body()
    {
      if |finishedQueue| == n - 1 {
        finishedGateOpen := true;
        willCommit := true;
      }
      if aborted {
        willCommit := false;
      }
      if |finishedQueue| == 0 {
        finishedGateOpen := false;
        aborted := false;
      }
    }

    /** One call of the entry, up to the end of its protected action. */
    method Finished(w: nat) returns (released: seq<nat>)
      modifies this
      ensures (State(), released) == old(State()).Call(w)
    {
      hide Manager.Drain, Manager.Call, Manager.Body;
      CallIs(State(), w);
      released := [];
      if finishedGateOpen || |finishedQueue| == n {
        ExecuteFinished();
        released := [w];
      } else {
        finishedQueue := finishedQueue + [w];
      }
      ghost var goal := old(State()).Call(w);
      while finishedQueue != [] && (finishedGateOpen || |finishedQueue| == n)
        invariant State().Drain().0 == goal.0
        invariant released + State().Drain().1 == goal.1
        decreases |finishedQueue|
      {
        ghost var m := State();
        DrainIs(m);
        BodyKeepsQueue(m.(queue := m.queue[1..]));
        var w' := finishedQueue[0];
        finishedQueue := finishedQueue[1..];
        ExecuteFinished();
        assert State() == m.(queue := m.queue[1..]).Body();
        assert released + ([w'] + State().Drain().1) == released + [w'] + State().Drain().1;
        released := released + [w'];
      }
      DrainIs(State());
      assert released + [] == released;
    }

    method SignalAbort()
      modifies this
      ensures State() == old(State()).(aborted := true)
    {
      aborted := true;
    }

    method Commit() returns (b: bool)
      ensures b == willCommit
    {
      return willCommit;
    }
  }
}
