/**
 How elevators find each other. While starting, a node broadcasts Initial until it knows as many peers as
 there are elevators, then Ready until it has heard Ready from as many; a node that is already connected
 answers the Initial of a restarted one with all it knows. The network may lose, duplicate and reorder
 packets, and nodes may crash and restart at any moment.
*/
module SessionProtocol {
  import opened ElevatorTypes
  import opened GlobalStates
  import opened SessionPeers

  /** The packets of the service channel, and the state changes of the elevators. */
  datatype Body =
    | Initial
    | Ready
    | RecoveryPeers(peers: set<int>)
    | RecoveryState(state: ElevatorState, peers: set<int>)
    | Change(state: ElevatorState)

  datatype Packet = Packet(source: int, target: Maybe<int>, body: Body) {
    predicate Reaches(a: int) { target == Nothing || target == Just(a) }
  }

  /** One node: its session manager, the id its elevator goes by, and its map of elevator states. */
  datatype Node = Node(phase: int, peers: set<int>, barrier: set<int>, id: Maybe<int>,
                       recovery: Maybe<ElevatorState>, elevator: Maybe<int>, states: map<int, ElevatorState>)

  const FRESH := Node(0, {}, {}, Nothing, Nothing, Nothing, map[])

  // ---- what a node does

  /** What the sender broadcasts while the node is starting. */
  function Sent(n: Node): Body {
    if n.phase == 0 then Initial else Ready
  }

  function Received(n: Node, source: int, body: Body): Node {
    match body
    case Initial => n.(peers := n.peers + {source})
    case Ready => n.(peers := n.peers + {source}, barrier := n.barrier + {source})
    case RecoveryPeers(ps) => n.(peers := ps, barrier := ps, phase := 2)
    case RecoveryState(st, ps) =>
      n.(states := n.states[st.id := st], recovery := Just(st), peers := ps, barrier := ps, phase := 2)
    case Change(_) => n
  }

  /** One packet at a starting node. */
  function Listen(n: Node, count: int, source: int, body: Body): Node {
    var m := Received(n, source, body);
    if |m.barrier| == count then m.(phase := 2)
    else if |m.peers| == count then m.(phase := 1)
    else m
  }

  /** The id is the rank of the first peer address that belongs to this machine. */
  ghost function AssignId(n: Node, local: set<int>): Node {
    n.(id := if n.peers * local == {} then Nothing else Just(Rank(n.peers, Least(n.peers * local))))
  }

  /** A connected node's answer to an Initial packet; strangers get none. */
  function Help(n: Node, source: int): Maybe<Body> {
    if source !in n.peers then Nothing
    else
      var i := Rank(n.peers, source);
      Just(if i in n.states then RecoveryState(n.states[i], n.peers) else RecoveryPeers(n.peers))
  }

  // ---- the system

  /** The addresses on the network, and the local addresses of the machine behind each of them. */
  datatype Network = Network(all: set<int>, local: map<int, set<int>>) {
    predicate Valid() {
      && all != {} && local.Keys == all
      && forall a :: a in all ==> local[a] * all == {a}
    }

    function Count(): int { |all| }
  }

  lemma ValidKeys(net: Network)
    requires net.Valid()
    ensures net.local.Keys == net.all && net.all != {}
  {
  }

  datatype System = System(nodes: map<int, Node>, packets: set<Packet>)

  datatype Action =
    | Send(a: int)
    | Hear(a: int, p: Packet)
    | Assign(a: int)
    | Answer(a: int, p: Packet)
    | Begin(a: int)
    | Publish(a: int, state: ElevatorState)
    | Learn(a: int, p: Packet, now: int)
    | Lose(p: Packet)
    | Crash(a: int)

  predicate Init(net: Network, s: System) {
    s.nodes.Keys == net.all && s.packets == {} && forall a :: a in net.all ==> s.nodes[a] == FRESH
  }

  predicate Arrives(s: System, a: int, p: Packet) {
    p in s.packets && p.Reaches(a)
  }

  predicate Enabled(net: Network, s: System, act: Action)
    requires s.nodes.Keys == net.all
  {
    match act
    case Lose(p) => true
    case Crash(a) => a in net.all
    case Send(a) => a in net.all && s.nodes[a].phase < 2
    case Hear(a, p) => a in net.all && s.nodes[a].phase < 2 && Arrives(s, a, p) && !p.body.Change?
    case Assign(a) => a in net.all && s.nodes[a].phase == 2 && s.nodes[a].id == Nothing
    case Answer(a, p) => a in net.all && s.nodes[a].id.Just? && Arrives(s, a, p) && p.body == Initial
    case Begin(a) => a in net.all && s.nodes[a].id.Just? && s.nodes[a].elevator == Nothing
    case Publish(a, state) => a in net.all && s.nodes[a].elevator == Just(state.id)
    case Learn(a, p, _) =>
      a in net.all && s.nodes[a].elevator.Just? && Arrives(s, a, p) && p.body.Change?
      && s.nodes[a].id != Just(p.body.state.id)
  }

  ghost function After(net: Network, s: System, act: Action): System
    requires s.nodes.Keys == net.all == net.local.Keys && Enabled(net, s, act)
  {
    match act
    case Lose(p) => s.(packets := s.packets - {p})
    case Crash(a) => s.(nodes := s.nodes[a := FRESH])
    case Send(a) => s.(packets := s.packets + {Packet(a, Nothing, Sent(s.nodes[a]))})
    case Hear(a, p) => s.(nodes := s.nodes[a := Listen(s.nodes[a], net.Count(), p.source, p.body)])
    case Assign(a) => s.(nodes := s.nodes[a := AssignId(s.nodes[a], net.local[a])])
    case Answer(a, p) =>
      (match Help(s.nodes[a], p.source)
       case Nothing => s
       case Just(body) => s.(packets := s.packets + {Packet(a, Just(p.source), body)}))
    case Begin(a) =>
      var n := s.nodes[a];
      s.(nodes := s.nodes[a := n.(elevator := if n.recovery.Just? then Just(n.recovery.value.id) else n.id)])
    case Publish(a, state) =>
      var n := s.nodes[a];
      System(s.nodes[a := n.(states := n.states[state.id := state])], s.packets + {Packet(a, Nothing, Change(state))})
    case Learn(a, p, now) =>
      var n, state := s.nodes[a], p.body.state;
      s.(nodes := s.nodes[a := n.(states := n.states[state.id := state.(timestamp := now)])])
  }

  ghost predicate Run(net: Network, ss: seq<System>, acts: seq<Action>) {
    && net.Valid() && |ss| == |acts| + 1 && Init(net, ss[0])
    && forall k :: 0 <= k < |acts| ==>
         && ss[k].nodes.Keys == net.all
         && Enabled(net, ss[k], acts[k])
         && ss[k + 1] == After(net, ss[k], acts[k])
  }

  // ---- the invariant

  /** `learned` are the nodes that have known all peers, now or before a crash. */
  ghost predicate NodeInv(net: Network, a: int, n: Node, learned: set<int>)
    requires a in net.all
  {
    && n.barrier <= n.peers <= net.all
    && n.barrier <= learned
    && 0 <= n.phase <= 2
    && (n.phase >= 1 ==> n.peers == net.all)
    && (n.phase == 2 ==> net.all <= learned)
    && (n.id.Just? ==> n.phase == 2 && n.id.value == Rank(net.all, a))
    && (n.recovery.Just? ==> n.recovery.value.id == Rank(net.all, a))
    && (n.elevator.Just? ==> n.elevator == n.id)
    && Keyed(n.states)
  }

  ghost predicate PacketInv(net: Network, p: Packet, learned: set<int>) {
    && p.source in net.all
    && match p.body
       case Initial => true
       case Ready => p.source in learned
       case RecoveryPeers(ps) => ps == net.all && net.all <= learned
       case RecoveryState(st, ps) =>
         && ps == net.all && net.all <= learned
         && p.target.Just? && st.id == Rank(net.all, p.target.value)
       case Change(st) => st.id == Rank(net.all, p.source)
  }

  ghost predicate Inv(net: Network, s: System, learned: set<int>) {
    && s.nodes.Keys == net.all
    && (forall a :: a in net.all ==> NodeInv(net, a, s.nodes[a], learned))
    && (forall a :: a in net.all && s.nodes[a].peers == net.all ==> a in learned)
    && (forall p :: p in s.packets ==> PacketInv(net, p, learned))
  }

  // ---- each step keeps it

  lemma InitInv(net: Network, s: System)
    requires net.Valid() && Init(net, s)
    ensures Inv(net, s, {})
  {
  }

  ghost function Learned(net: Network, s: System, act: Action, learned: set<int>): set<int>
    requires net.Valid() && s.nodes.Keys == net.all && Enabled(net, s, act)
  {
    if act.Hear? && After(net, s, act).nodes[act.a].peers == net.all then learned + {act.a} else learned
  }

  /** What is known once stays known. */
  lemma LearnedGrows(net: Network, s: System, learned: set<int>, a: int)
    requires Inv(net, s, learned)
    ensures forall b :: b in net.all ==> NodeInv(net, b, s.nodes[b], learned + {a})
    ensures forall p :: p in s.packets ==> PacketInv(net, p, learned + {a})
  {
    hide Keyed, Rank;
  }

  lemma ReceivedInv(net: Network, a: int, n: Node, p: Packet, learned: set<int>)
    requires a in net.all && NodeInv(net, a, n, learned) && n.phase < 2
    requires PacketInv(net, p, learned) && p.Reaches(a) && !p.body.Change?
    ensures var m := Received(n, p.source, p.body);
            && m.barrier <= m.peers <= net.all && m.barrier <= learned
            && (m.phase == n.phase || (m.phase == 2 && m.peers == m.barrier == net.all && net.all <= learned))
            && m.id == n.id && m.elevator == n.elevator
            && (n.peers == net.all ==> m.peers == net.all)
            && (m.recovery.Just? ==> m.recovery.value.id == Rank(net.all, a))
            && Keyed(m.states)
  {
    hide Rank;
  }

  /** A starting node moves on only when it knows everybody, and passes the barrier only when everybody has
      known everybody. */
  lemma ListenInv(net: Network, a: int, n: Node, p: Packet, learned: set<int>)
    requires a in net.all && NodeInv(net, a, n, learned) && n.phase < 2
    requires PacketInv(net, p, learned) && p.Reaches(a) && !p.body.Change?
    ensures var m := Listen(n, net.Count(), p.source, p.body);
            NodeInv(net, a, m, if m.peers == net.all then learned + {a} else learned)
  {
    ReceivedInv(net, a, n, p, learned);
    var m := Received(n, p.source, p.body);
    hide Received, Keyed, Rank;
    if |m.barrier| == net.Count() {
      FullSubset(m.barrier, net.all);
    } else if |m.peers| == net.Count() {
      FullSubset(m.peers, net.all);
    }
  }

  lemma HearInv(net: Network, s: System, act: Action, learned: set<int>)
    requires net.Valid() && Inv(net, s, learned) && Enabled(net, s, act) && act.Hear?
    ensures Inv(net, After(net, s, act), Learned(net, s, act, learned))
  {
    ListenInv(net, act.a, s.nodes[act.a], act.p, learned);
    LearnedGrows(net, s, learned, act.a);
    hide NodeInv, PacketInv, Listen;
  }

  lemma AssignInv(net: Network, s: System, a: int, learned: set<int>)
    requires net.Valid() && Inv(net, s, learned) && Enabled(net, s, Assign(a))
    ensures Inv(net, After(net, s, Assign(a)), learned)
    ensures After(net, s, Assign(a)).nodes[a].id == Just(Rank(net.all, a))
  {
    assert NodeInv(net, a, s.nodes[a], learned);
    assert net.all * net.local[a] == {a};
    assert Least({a}) == a;
    assert After(net, s, Assign(a)).nodes[a] == s.nodes[a].(id := Just(Rank(net.all, a)));
    hide Rank, Keyed, PacketInv, AssignId;
  }

  lemma HelpInv(net: Network, a: int, n: Node, source: int, learned: set<int>)
    requires a in net.all && NodeInv(net, a, n, learned) && n.id.Just? && source in net.all
    ensures Help(n, source).Just?
    ensures PacketInv(net, Packet(a, Just(source), Help(n, source).value), learned)
  {
    hide Rank;
  }

  lemma SendInv(net: Network, s: System, a: int, learned: set<int>)
    requires net.Valid() && Inv(net, s, learned) && Enabled(net, s, Send(a))
    ensures Inv(net, After(net, s, Send(a)), learned)
  {
    assert NodeInv(net, a, s.nodes[a], learned);
    assert PacketInv(net, Packet(a, Nothing, Sent(s.nodes[a])), learned);
    hide NodeInv, PacketInv, Sent;
  }

  lemma AnswerInv(net: Network, s: System, a: int, p: Packet, learned: set<int>)
    requires net.Valid() && Inv(net, s, learned) && Enabled(net, s, Answer(a, p))
    ensures Inv(net, After(net, s, Answer(a, p)), learned)
  {
    assert PacketInv(net, p, learned);
    HelpInv(net, a, s.nodes[a], p.source, learned);
    hide NodeInv, PacketInv, Help;
  }

  lemma PublishInv(net: Network, s: System, a: int, state: ElevatorState, learned: set<int>)
    requires net.Valid() && Inv(net, s, learned) && Enabled(net, s, Publish(a, state))
    ensures Inv(net, After(net, s, Publish(a, state)), learned)
  {
    assert NodeInv(net, a, s.nodes[a], learned);
    hide Rank;
    assert PacketInv(net, Packet(a, Nothing, Change(state)), learned);
    assert NodeInv(net, a, After(net, s, Publish(a, state)).nodes[a], learned);
    hide NodeInv, PacketInv;
  }

  lemma OwnStepInv(net: Network, s: System, act: Action, learned: set<int>)
    requires net.Valid() && Inv(net, s, learned) && Enabled(net, s, act)
    requires act.Begin? || act.Learn? || act.Crash?
    ensures Inv(net, After(net, s, act), learned)
  {
    hide Rank;
    assert NodeInv(net, act.a, s.nodes[act.a], learned);
    assert NodeInv(net, act.a, After(net, s, act).nodes[act.a], learned);
    hide NodeInv, PacketInv;
  }

  lemma StepInv(net: Network, s: System, act: Action, learned: set<int>)
    requires net.Valid() && Inv(net, s, learned) && Enabled(net, s, act)
    ensures Inv(net, After(net, s, act), Learned(net, s, act, learned))
  {
    match act
    case Hear(_, _) => HearInv(net, s, act, learned);
    case Lose(_) => hide NodeInv, PacketInv;
    case Send(a) => SendInv(net, s, a, learned);
    case Assign(a) => AssignInv(net, s, a, learned);
    case Answer(a, p) => AnswerInv(net, s, a, p, learned);
    case Publish(a, state) => PublishInv(net, s, a, state, learned);
    case _ => OwnStepInv(net, s, act, learned);
  }
}
