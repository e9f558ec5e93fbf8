/**
 What a restarted elevator gets back. A connected node answers it with the last state that it has learned of
 the elevator, and a starting node that hears the answer goes on from exactly that state.
*/
module SessionRecovery {
  import opened ElevatorTypes
  import opened GlobalStates
  import opened SessionAgreement
  import opened SessionPeers
  import opened SessionProtocol

  /** What an action of node a lets it know of the elevator with id r. A node that crashes forgets. */
  function Updated(act: Action, a: int, r: int, known: Maybe<ElevatorState>): Maybe<ElevatorState> {
    match act
    case Crash(b) => if b == a then Nothing else known
    case Publish(b, state) => if b == a && state.id == r then Just(state) else known
    case Learn(b, p, now) =>
      if b == a && p.body.Change? && p.body.state.id == r then Just(p.body.state.(timestamp := now)) else known
    case Hear(b, p) =>
      if b == a && p.body.RecoveryState? && p.body.state.id == r then Just(p.body.state) else known
    case _ => known
  }

  /** The last state of elevator r that node a has published, heard of or recovered in the first k actions, since
      its last crash. */
  function LastLearned(acts: seq<Action>, k: nat, a: int, r: int): Maybe<ElevatorState>
    requires k <= |acts|
  {
    if k == 0 then Nothing else Updated(acts[k - 1], a, r, LastLearned(acts, k - 1, a, r))
  }

  function Under(states: map<int, ElevatorState>, r: int): Maybe<ElevatorState> {
    if r in states then Just(states[r]) else Nothing
  }

  lemma StatesStep(net: Network, s: System, act: Action, a: int, r: int)
    requires s.nodes.Keys == net.all == net.local.Keys && Enabled(net, s, act) && a in net.all
    ensures After(net, s, act).nodes.Keys == net.all
    ensures Under(After(net, s, act).nodes[a].states, r) == Updated(act, a, r, Under(s.nodes[a].states, r))
  {
    hide Help, Sent;
    if act.Hear? {
      ListenStates(s.nodes[act.a], net.Count(), act.p.source, act.p.body);
    }
    hide Listen;
  }

  lemma ListenStates(n: Node, count: int, source: int, body: Body)
    ensures Listen(n, count, source, body).states
         == if body.RecoveryState? then n.states[body.state.id := body.state] else n.states
  {
  }

  /** The map of a node holds exactly what it has learned last. */
  lemma {:induction false} StatesAreLearned(net: Network, ss: seq<System>, acts: seq<Action>, k: nat, a: int, r: int)
    requires Run(net, ss, acts) && k <= |acts| && a in net.all
    ensures k < |ss| && ss[k].nodes.Keys == net.all
    ensures Under(ss[k].nodes[a].states, r) == LastLearned(acts, k, a, r)
  {
    hide Run, Init, Enabled, After, Network.Valid, Updated;
    RunStart(net, ss, acts);
    if k == 0 {
      FreshStates(net, ss[0], a);
    } else {
      StatesAreLearned(net, ss, acts, k - 1, a, r);
      RunStep(net, ss, acts, k - 1);
      StatesStep(net, ss[k - 1], acts[k - 1], a, r);
    }
  }

  lemma FreshStates(net: Network, s: System, a: int)
    requires Init(net, s) && a in net.all
    ensures s.nodes.Keys == net.all && s.nodes[a] == FRESH && s.nodes[a].states == map[]
  {
  }

  /** The answer to an Initial packet in step k. */
  ghost function AnswerTo(net: Network, acts: seq<Action>, k: nat): Packet
    requires k < |acts| && acts[k].Answer?
  {
    var a, x := acts[k].a, acts[k].p.source;
    var known := LastLearned(acts, k, a, Rank(net.all, x));
    Packet(a, Just(x), if known.Just? then RecoveryState(known.value, net.all) else RecoveryPeers(net.all))
  }

  /** In every run: a connected node that answers a restarted one sends it the last state that it has learned
      under the id of that node, with all peers, and the peers alone if it has learned none. */
  lemma AnswerIsLastLearned(net: Network, ss: seq<System>, acts: seq<Action>, k: nat)
    requires Run(net, ss, acts) && k < |acts| && acts[k].Answer?
    ensures |ss| == |acts| + 1 && ss[k + 1] == ss[k].(packets := ss[k].packets + {AnswerTo(net, acts, k)})
  {
    hide Run, Enabled, After, Network.Valid, Inv, Help, Rank;
    RunStep(net, ss, acts, k);
    var learned := RunInv(net, ss, acts, k);
    var a, p := acts[k].a, acts[k].p;
    AnswerParts(net, ss[k], a, p, learned);
    HelpIs(ss[k].nodes[a], p.source);
    StatesAreLearned(net, ss, acts, k, a, Rank(net.all, p.source));
    AnswerIs(net, ss[k], a, p);
  }

  lemma AnswerParts(net: Network, s: System, a: int, p: Packet, learned: set<int>)
    requires Inv(net, s, learned) && Enabled(net, s, Answer(a, p))
    ensures a in net.all && p.source in net.all && s.nodes[a].peers == net.all
  {
    assert NodeInv(net, a, s.nodes[a], learned) && PacketInv(net, p, learned);
    hide Keyed, Rank;
  }

  lemma HelpIs(n: Node, x: int)
    requires x in n.peers
    ensures var known := Under(n.states, Rank(n.peers, x));
            Help(n, x) == Just(if known.Just? then RecoveryState(known.value, n.peers) else RecoveryPeers(n.peers))
  {
    hide Rank;
  }

  lemma AnswerIs(net: Network, s: System, a: int, p: Packet)
    requires s.nodes.Keys == net.all == net.local.Keys && Enabled(net, s, Answer(a, p))
    requires Help(s.nodes[a], p.source).Just?
    ensures After(net, s, Answer(a, p))
         == s.(packets := s.packets + {Packet(a, Just(p.source), Help(s.nodes[a], p.source).value)})
  {
    hide Help;
  }

  // ---- what the restarted node makes of it

  /** A node that is still starting has recovered nothing. */
  predicate NothingYet(n: Node) {
    n.phase < 2 ==> n.recovery == Nothing
  }

  lemma ListenRecovers(n: Node, all: set<int>, source: int, body: Body)
    requires NothingYet(n) && n.phase < 2 && n.recovery == Nothing
    requires body.RecoveryPeers? || body.RecoveryState? ==> body.peers == all
    ensures var m := Listen(n, |all|, source, body);
            && NothingYet(m)
            && (body.RecoveryPeers? || body.RecoveryState? ==> m.phase == 2 && m.peers == all && m.barrier == all)
            && m.recovery == (if body.RecoveryState? then Just(body.state) else Nothing)
            && (body.RecoveryState? ==> body.state.id in m.states && m.states[body.state.id] == body.state)
            && (!body.RecoveryState? ==> m.states == n.states)
  {
  }

  /** What x has recovered stays until it crashes. */
  lemma RecoveryStep(net: Network, s: System, act: Action, x: int, learned: set<int>)
    requires net.Valid() && Inv(net, s, learned) && Enabled(net, s, act) && x in net.all && NothingYet(s.nodes[x])
    ensures After(net, s, act).nodes.Keys == net.all && NothingYet(After(net, s, act).nodes[x])
    ensures s.nodes[x].phase == 2 && act != Crash(x) ==>
              After(net, s, act).nodes[x].phase == 2 && After(net, s, act).nodes[x].recovery == s.nodes[x].recovery
  {
    ValidKeys(net);
    assert NodeInv(net, x, s.nodes[x], learned);
    if act.Hear? && act.a == x {
      assert PacketInv(net, act.p, learned);
      ListenRecovers(s.nodes[x], net.all, act.p.source, act.p.body);
    }
    hide Inv, NodeInv, PacketInv, Listen, Help, Sent, Network.Valid;
  }

  lemma {:induction false} NothingYetAlways(net: Network, ss: seq<System>, acts: seq<Action>, k: nat, x: int)
    requires Run(net, ss, acts) && k < |ss| && x in net.all
    ensures ss[k].nodes.Keys == net.all && NothingYet(ss[k].nodes[x])
  {
    hide Run, Init, Enabled, After, Network.Valid, Inv, NothingYet;
    RunStart(net, ss, acts);
    if k == 0 {
      FreshStates(net, ss[0], x);
      FreshNothing();
    } else {
      NothingYetAlways(net, ss, acts, k - 1, x);
      RunStep(net, ss, acts, k - 1);
      var learned := RunInv(net, ss, acts, k - 1);
      RecoveryStep(net, ss[k - 1], acts[k - 1], x, learned);
    }
  }

  lemma FreshNothing()
    ensures NothingYet(FRESH)
  {
  }

  /** In every run: a starting node that hears an answer knows all peers and is past the barrier. If the answer
      has a state, it is that of the node's own id, and the node holds it as recovered and under that id;
      otherwise the node has recovered nothing. */
  lemma AnswerIsTaken(net: Network, ss: seq<System>, acts: seq<Action>, j: nat, x: int, p: Packet)
    requires Run(net, ss, acts) && j < |acts| && acts[j] == Hear(x, p)
    requires p.body.RecoveryPeers? || p.body.RecoveryState?
    ensures j + 1 < |ss| && x in ss[j + 1].nodes
    ensures var n := ss[j + 1].nodes[x];
            && n.phase == 2 && n.peers == net.all
            && (p.body.RecoveryPeers? ==> n.recovery == Nothing)
            && (p.body.RecoveryState? ==>
                  var state := p.body.state;
                  && state.id == Rank(net.all, x) && n.recovery == Just(state)
                  && state.id in n.states && n.states[state.id] == state)
  {
    hide Run, Enabled, After, Network.Valid, Inv, Rank, NothingYet;
    RunStep(net, ss, acts, j);
    var learned := RunInv(net, ss, acts, j);
    HeardAnswer(net, ss[j], x, p, learned);
    NothingYetAlways(net, ss, acts, j, x);
    StartingHasNothing(ss[j].nodes[x]);
    ListenRecovers(ss[j].nodes[x], net.all, p.source, p.body);
    HearIs(net, ss[j], x, p);
    hide Listen;
  }

  lemma HeardAnswer(net: Network, s: System, x: int, p: Packet, learned: set<int>)
    requires Inv(net, s, learned) && Enabled(net, s, Hear(x, p)) && (p.body.RecoveryPeers? || p.body.RecoveryState?)
    ensures x in net.all && s.nodes[x].phase < 2 && p.body.peers == net.all
    ensures p.body.RecoveryState? ==> p.body.state.id == Rank(net.all, x)
  {
    assert PacketInv(net, p, learned);
    hide Rank, NodeInv;
  }

  lemma StartingHasNothing(n: Node)
    requires NothingYet(n) && n.phase < 2
    ensures n.recovery == Nothing
  {
  }

  lemma HearIs(net: Network, s: System, x: int, p: Packet)
    requires s.nodes.Keys == net.all == net.local.Keys && Enabled(net, s, Hear(x, p))
    ensures x in net.all && After(net, s, Hear(x, p)).nodes.Keys == net.all
    ensures After(net, s, Hear(x, p)).nodes[x] == Listen(s.nodes[x], net.Count(), p.source, p.body)
  {
    hide Listen;
  }

  /** In every run: if node a answers node x in step k, and x hears that answer in step j, then until x crashes
      again it has recovered exactly what a had learned of it last before step k, and goes by its own id. */
  lemma {:induction false} RestartRecovers(net: Network, ss: seq<System>, acts: seq<Action>, k: nat,
                                           j: nat, m: nat, x: int)
    requires Run(net, ss, acts) && k < |acts| && acts[k].Answer? && acts[k].p.source == x
    requires j < |acts| && acts[j] == Hear(x, AnswerTo(net, acts, k))
    requires j < m < |ss| && forall i :: j < i < m ==> acts[i] != Crash(x)
    ensures x in ss[m].nodes && ss[m].nodes[x].phase == 2
    ensures ss[m].nodes[x].recovery == LastLearned(acts, k, acts[k].a, Rank(net.all, x))
    ensures ss[m].nodes[x].elevator.Just? ==> ss[m].nodes[x].elevator == Just(Rank(net.all, x))
    decreases m
  {
    hide Run, Init, Enabled, After, Network.Valid, Inv, Rank, NothingYet, LastLearned;
    RunLength(net, ss, acts);
    AnswerIsTaken(net, ss, acts, j, x, AnswerTo(net, acts, k));
    if j + 1 < m {
      RestartRecovers(net, ss, acts, k, j, m - 1, x);
      RunStep(net, ss, acts, m - 1);
      NothingYetAlways(net, ss, acts, m - 1, x);
      var before := RunInv(net, ss, acts, m - 1);
      RecoveryStep(net, ss[m - 1], acts[m - 1], x, before);
    }
    var learned := RunInv(net, ss, acts, m);
    GoesByRank(net, ss[m], x, learned);
  }

  lemma GoesByRank(net: Network, s: System, x: int, learned: set<int>)
    requires Inv(net, s, learned) && x in s.nodes
    ensures s.nodes[x].elevator.Just? ==> s.nodes[x].elevator == Just(Rank(net.all, x))
  {
    assert NodeInv(net, x, s.nodes[x], learned);
    hide Rank, Keyed, PacketInv;
  }
}
