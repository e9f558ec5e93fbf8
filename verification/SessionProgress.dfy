/**
 When a starting node can still connect. As long as no node has crashed, a node has a way to connect, without
 a crash, if and only if it is not stuck: waiting for the Ready of a connected node, with nothing under way
 that could replace it.
*/
module SessionProgress {
  import opened ElevatorTypes
  import opened SessionAgreement
  import opened SessionPeers
  import opened SessionProtocol

  // ---- continuations without crashes

  predicate CrashFree(acts: seq<Action>) {
    forall i :: 0 <= i < |acts| ==> !acts[i].Crash?
  }

  /** The state after some steps; Nothing if one of them is not possible. */
  ghost function Exec(net: Network, s: System, acts: seq<Action>): Maybe<System>
    requires net.Valid()
    decreases |acts|
  {
    if acts == [] then Just(s)
    else if s.nodes.Keys == net.all && Enabled(net, s, acts[0])
    then Exec(net, After(net, s, acts[0]), acts[1..])
    else Nothing
  }

  ghost predicate Leads(net: Network, s: System, t: System)
    requires net.Valid()
  {
    exists acts :: CrashFree(acts) && Exec(net, s, acts) == Just(t)
  }

  lemma LeadsNowhere(net: Network, s: System)
    requires net.Valid()
    ensures Leads(net, s, s)
  {
    assert CrashFree([]) && Exec(net, s, []) == Just(s);
  }

  lemma LeadsOn(net: Network, s: System, act: Action, t: System)
    requires net.Valid() && s.nodes.Keys == net.all && Enabled(net, s, act) && !act.Crash?
    requires Leads(net, After(net, s, act), t)
    ensures Leads(net, s, t)
  {
    var acts :| CrashFree(acts) && Exec(net, After(net, s, act), acts) == Just(t);
    var more := [act] + acts;
    assert more[1..] == acts && CrashFree(more);
    hide Enabled, After;
    assert Exec(net, s, more) == Just(t);
  }

  lemma {:induction false} ExecThen(net: Network, s: System, acts: seq<Action>, more: seq<Action>)
    requires net.Valid() && Exec(net, s, acts).Just?
    ensures Exec(net, s, acts + more) == Exec(net, Exec(net, s, acts).value, more)
    decreases |acts|
  {
    if acts == [] {
      assert acts + more == more;
    } else {
      assert (acts + more)[1..] == acts[1..] + more;
      hide Enabled, After;
      ExecThen(net, After(net, s, acts[0]), acts[1..], more);
    }
  }

  lemma LeadsThen(net: Network, s: System, t: System, u: System)
    requires net.Valid() && Leads(net, s, t) && Leads(net, t, u)
    ensures Leads(net, s, u)
  {
    var acts :| CrashFree(acts) && Exec(net, s, acts) == Just(t);
    var more :| CrashFree(more) && Exec(net, t, more) == Just(u);
    ExecThen(net, s, acts, more);
    assert CrashFree(acts + more);
  }

  // ---- what holds while nobody has crashed

  predicate Recovery(b: Body) { b.RecoveryPeers? || b.RecoveryState? }

  /** A node that does not know everybody yet has never said that it is ready, so nobody is past the barrier. */
  ghost predicate Early(net: Network, s: System, y: int)
    requires s.nodes.Keys == net.all && y in net.all
  {
    && s.nodes[y].peers != net.all
    && (forall a :: a in net.all ==> y !in s.nodes[a].barrier && s.nodes[a].phase < 2)
    && (forall p :: p in s.packets ==> !Recovery(p.body) && (p.body == Ready ==> p.source != y))
  }

  ghost predicate Uncrashed(net: Network, s: System) {
    && s.nodes.Keys == net.all
    && (forall a :: a in net.all && s.nodes[a].phase < 2 ==> s.nodes[a].barrier != net.all)
    && (forall y :: y in net.all && s.nodes[y].phase == 0 ==> Early(net, s, y))
    && (forall p :: p in s.packets && (p.body == Initial || p.body == Ready) ==> p.target == Nothing)
  }

  /** The states of runs without crashes. */
  ghost predicate Reached(net: Network, s: System) {
    net.Valid() && Uncrashed(net, s) && exists learned :: Inv(net, s, learned)
  }

  lemma InitUncrashed(net: Network, s: System)
    requires net.Valid() && Init(net, s)
    ensures Reached(net, s)
  {
    InitInv(net, s);
    assert forall y :: y in net.all ==> Early(net, s, y);
  }

  /** What one packet does to a starting node. */
  lemma ListenSteps(net: Network, a: int, n: Node, p: Packet, learned: set<int>)
    requires a in net.all && NodeInv(net, a, n, learned) && n.phase < 2
    requires PacketInv(net, p, learned) && p.Reaches(a) && !p.body.Change?
    ensures var m := Listen(n, net.Count(), p.source, p.body);
            && (m.phase < 2 ==> m.barrier != net.all)
            && (m.phase == 0 ==> m.peers != net.all)
            && (m.phase == 2 ==> m.peers == m.barrier == net.all)
            && (!Recovery(p.body) ==>
                  && m.peers == n.peers + {p.source}
                  && m.barrier == n.barrier + if p.body == Ready then {p.source} else {})
            && (Recovery(p.body) ==> m.phase == 2)
            && m.id == n.id
  {
    PhaseIs(net, a, n, learned);
    hide Received, NodeInv, PacketInv, Recovery, Rank;
    ReceivedInv(net, a, n, p, learned);
    ReceivedIs(n, p.source, p.body);
    var m := Received(n, p.source, p.body);
    if |m.barrier| == net.Count() {
      FullSubset(m.barrier, net.all);
    }
  }

  lemma PhaseIs(net: Network, a: int, n: Node, learned: set<int>)
    requires a in net.all && NodeInv(net, a, n, learned)
    ensures n.phase == 0 || n.phase == 1 || n.phase == 2
  {
  }

  lemma ReceivedIs(n: Node, source: int, body: Body)
    requires !body.Change?
    ensures var m := Received(n, source, body);
            && (!Recovery(body) ==>
                  && m.phase == n.phase && m.peers == n.peers + {source}
                  && m.barrier == n.barrier + if body == Ready then {source} else {})
            && (Recovery(body) ==> m.phase == 2)
            && m.id == n.id
  {
  }

  lemma SomeInv(net: Network, s: System) returns (learned: set<int>)
    requires Reached(net, s)
    ensures Inv(net, s, learned)
  {
    hide Inv, Uncrashed;
    learned :| Inv(net, s, learned);
  }

  lemma InvParts(net: Network, s: System, learned: set<int>)
    requires Inv(net, s, learned)
    ensures s.nodes.Keys == net.all
    ensures forall a :: a in net.all ==> NodeInv(net, a, s.nodes[a], learned)
    ensures forall p :: p in s.packets ==> PacketInv(net, p, learned)
  {
    hide NodeInv, PacketInv;
  }

  /** Node y does not notice that node a has heard a packet. */
  lemma EarlyStays(net: Network, s: System, a: int, m: Node, y: int)
    requires s.nodes.Keys == net.all && a in net.all && y in net.all && Early(net, s, y)
    requires m.phase < 2 && y !in m.barrier && (y == a ==> m.peers != net.all)
    ensures Early(net, s.(nodes := s.nodes[a := m]), y)
  {
  }

  lemma EarlyUnheard(net: Network, s: System, a: int, p: Packet, y: int)
    requires s.nodes.Keys == net.all && a in net.all && y in net.all && Early(net, s, y) && p in s.packets
    ensures !Recovery(p.body) && (p.body == Ready ==> p.source != y) && y !in s.nodes[a].barrier
  {
  }

  lemma EarlyAtStart(net: Network, s: System, y: int)
    requires Uncrashed(net, s) && y in net.all && s.nodes[y].phase == 0
    ensures Early(net, s, y)
  {
    hide Early;
  }

  /** Node a has heard a packet that was under way. */
  lemma NodeMoved(net: Network, s: System, a: int, m: Node)
    requires Uncrashed(net, s) && a in net.all && (m.phase < 2 ==> m.barrier != net.all)
    requires var t := s.(nodes := s.nodes[a := m]);
             forall y :: y in net.all && t.nodes[y].phase == 0 ==> Early(net, t, y)
    ensures Uncrashed(net, s.(nodes := s.nodes[a := m]))
  {
    hide Early;
  }

  lemma HearIs(net: Network, s: System, a: int, p: Packet)
    requires s.nodes.Keys == net.all == net.local.Keys && Enabled(net, s, Hear(a, p))
    ensures a in net.all && s.nodes[a].phase < 2 && p in s.packets && p.Reaches(a) && !p.body.Change?
    ensures After(net, s, Hear(a, p)) == s.(nodes := s.nodes[a := Listen(s.nodes[a], net.Count(), p.source, p.body)])
  {
    hide Listen;
  }

  lemma ReachedParts(net: Network, s: System)
    requires Reached(net, s)
    ensures net.Valid() && s.nodes.Keys == net.all == net.local.Keys && Uncrashed(net, s)
  {
    hide Inv;
  }

  lemma HearUncrashed(net: Network, s: System, a: int, p: Packet)
    requires Reached(net, s) && s.nodes.Keys == net.all == net.local.Keys && Enabled(net, s, Hear(a, p))
    ensures Uncrashed(net, After(net, s, Hear(a, p)))
  {
    hide Listen, Inv, NodeInv, PacketInv, After, Early, Uncrashed, Reached, Enabled, Network.Valid, Network.Count,
         Packet.Reaches;
    ReachedParts(net, s);
    var learned := SomeInv(net, s);
    InvParts(net, s, learned);
    HearIs(net, s, a, p);
    var m := Listen(s.nodes[a], net.Count(), p.source, p.body);
    ListenSteps(net, a, s.nodes[a], p, learned);
    PhaseKept(net, a, s.nodes[a], p, learned);
    var t := s.(nodes := s.nodes[a := m]);
    forall y | y in net.all && t.nodes[y].phase == 0
      ensures Early(net, t, y)
    {
      EarlyHears(net, s, a, p, m, y);
    }
    NodeMoved(net, s, a, m);
  }

  lemma EarlyHears(net: Network, s: System, a: int, p: Packet, m: Node, y: int)
    requires Uncrashed(net, s) && a in net.all && y in net.all && p in s.packets
    requires (if y == a then m else s.nodes[y]).phase == 0
    requires (m.phase == 0 ==> s.nodes[a].phase == 0 && m.peers != net.all) && (m.phase == 2 ==> m.barrier == net.all)
    requires 0 <= m.phase <= 2
    requires !Recovery(p.body) ==> m.barrier == s.nodes[a].barrier + if p.body == Ready then {p.source} else {}
    ensures Early(net, s.(nodes := s.nodes[a := m]), y)
  {
    hide Early;
    EarlyAtStart(net, s, y);
    EarlyUnheard(net, s, a, p, y);
    assert y !in m.barrier;
    hide Uncrashed;
    EarlyStays(net, s, a, m, y);
  }

  lemma PhaseKept(net: Network, a: int, n: Node, p: Packet, learned: set<int>)
    requires a in net.all && NodeInv(net, a, n, learned)
    ensures Listen(n, net.Count(), p.source, p.body).phase == 0 ==> n.phase == 0
    ensures 0 <= Listen(n, net.Count(), p.source, p.body).phase <= 2
  {
    PhaseGrows(net, n, p);
    hide Listen, Rank;
  }

  lemma PhaseGrows(net: Network, n: Node, p: Packet)
    requires 0 <= n.phase <= 2
    ensures Listen(n, net.Count(), p.source, p.body).phase == 0 ==> n.phase == 0
  {
  }

  lemma SendIs(net: Network, s: System, a: int)
    requires s.nodes.Keys == net.all == net.local.Keys && a in net.all
    ensures Enabled(net, s, Send(a)) <==> s.nodes[a].phase < 2
    ensures s.nodes[a].phase < 2 ==>
              After(net, s, Send(a)) == s.(packets := s.packets + {Packet(a, Nothing, Sent(s.nodes[a]))})
  {
    hide Sent;
  }

  lemma SendUncrashed(net: Network, s: System, a: int)
    requires Reached(net, s) && s.nodes.Keys == net.all == net.local.Keys && a in net.all && Enabled(net, s, Send(a))
    ensures Uncrashed(net, After(net, s, Send(a)))
  {
    hide Inv, After, Early, Uncrashed, Reached, Enabled, Network.Valid;
    ReachedParts(net, s);
    SendIs(net, s, a);
    var q := Packet(a, Nothing, Sent(s.nodes[a]));
    var t := s.(packets := s.packets + {q});
    forall y | y in net.all && t.nodes[y].phase == 0
      ensures Early(net, t, y)
    {
      EarlyAtStart(net, s, y);
      EarlyPacket(net, s, q, y);
    }
    PacketSent(net, s, q);
  }

  lemma PacketSent(net: Network, s: System, q: Packet)
    requires Uncrashed(net, s) && q.target == Nothing
    requires var t := s.(packets := s.packets + {q});
             forall y :: y in net.all && t.nodes[y].phase == 0 ==> Early(net, t, y)
    ensures Uncrashed(net, s.(packets := s.packets + {q}))
  {
    hide Early;
  }

  lemma EarlyPacket(net: Network, s: System, q: Packet, y: int)
    requires s.nodes.Keys == net.all && y in net.all && Early(net, s, y)
    requires !Recovery(q.body) && (q.body == Ready ==> q.source != y)
    ensures Early(net, s.(packets := s.packets + {q}), y)
  {
  }

  lemma AnswerIs(net: Network, s: System, a: int, p: Packet)
    requires s.nodes.Keys == net.all == net.local.Keys && Enabled(net, s, Answer(a, p))
    ensures a in net.all && s.nodes[a].id.Just?
    ensures var t := After(net, s, Answer(a, p));
            t.nodes == s.nodes && s.packets <= t.packets
            && forall q :: q in t.packets ==> q in s.packets || Recovery(q.body)
    ensures Help(s.nodes[a], p.source).Just? ==>
              Packet(a, Just(p.source), Help(s.nodes[a], p.source).value) in After(net, s, Answer(a, p)).packets
  {
    assert Help(s.nodes[a], p.source).Just? ==> Recovery(Help(s.nodes[a], p.source).value);
    hide Help;
  }

  lemma AnswerUncrashed(net: Network, s: System, a: int, p: Packet)
    requires Reached(net, s) && s.nodes.Keys == net.all == net.local.Keys && Enabled(net, s, Answer(a, p))
    ensures Uncrashed(net, After(net, s, Answer(a, p)))
  {
    hide Inv, Early, Help, After, Enabled, Reached, Recovery, Network.Valid;
    ReachedParts(net, s);
    AnswerIs(net, s, a, p);
    PeersKnown(net, s, a);
    forall y | y in net.all
      ensures s.nodes[y].phase != 0
    {
      NobodyEarly(net, s, y, a);
    }
    LateUncrashed(net, s, After(net, s, Answer(a, p)));
  }

  lemma LateUncrashed(net: Network, s: System, t: System)
    requires Uncrashed(net, s) && forall y :: y in net.all ==> s.nodes[y].phase != 0
    requires t.nodes == s.nodes && forall q :: q in t.packets ==> q in s.packets || Recovery(q.body)
    ensures Uncrashed(net, t)
  {
    hide Early;
  }

  lemma QuietIs(net: Network, s: System, act: Action)
    requires s.nodes.Keys == net.all == net.local.Keys && Enabled(net, s, act)
    requires act.Assign? || act.Begin? || act.Publish? || act.Learn? || act.Lose?
    ensures SameSession(net, s, After(net, s, act))
  {
    hide Rank, Least;
  }

  /** Steps that neither start packets of the session nor move a starting node. */
  lemma QuietUncrashed(net: Network, s: System, act: Action)
    requires Reached(net, s) && s.nodes.Keys == net.all == net.local.Keys && Enabled(net, s, act)
    requires act.Assign? || act.Begin? || act.Publish? || act.Learn? || act.Lose?
    ensures Uncrashed(net, After(net, s, act))
  {
    hide Uncrashed, Early, Inv, After, Enabled, SameSession, Reached, Network.Valid;
    ReachedParts(net, s);
    QuietIs(net, s, act);
    SameUncrashed(net, s, After(net, s, act));
  }

  ghost predicate SameSession(net: Network, s: System, t: System)
    requires s.nodes.Keys == net.all
  {
    && t.nodes.Keys == net.all
    && (forall a :: a in net.all ==>
          && t.nodes[a].phase == s.nodes[a].phase && t.nodes[a].peers == s.nodes[a].peers
          && t.nodes[a].barrier == s.nodes[a].barrier)
    && (forall p :: p in t.packets ==> p in s.packets || p.body.Change?)
  }

  lemma SameUncrashed(net: Network, s: System, t: System)
    requires Uncrashed(net, s) && SameSession(net, s, t)
    ensures Uncrashed(net, t)
  {
    hide Early;
    forall y | y in net.all && t.nodes[y].phase == 0
      ensures Early(net, t, y)
    {
      assert Early(net, s, y);
      EarlySame(net, s, t, y);
    }
  }

  lemma EarlySame(net: Network, s: System, t: System, y: int)
    requires s.nodes.Keys == net.all && y in net.all && Early(net, s, y) && SameSession(net, s, t)
    ensures Early(net, t, y)
  {
  }

  lemma ReachedOn(net: Network, s: System, act: Action)
    requires Reached(net, s) && s.nodes.Keys == net.all == net.local.Keys && Enabled(net, s, act) && !act.Crash?
    ensures Reached(net, After(net, s, act))
  {
    var learned := SomeInv(net, s);
    ReachedParts(net, s);
    assert act.Send? ==> act.a in net.all;
    hide After, Enabled, Inv, Uncrashed, Network.Valid;
    StepInv(net, s, act, learned);
    match act
    case Hear(a, p) => HearUncrashed(net, s, a, p);
    case Send(a) => SendUncrashed(net, s, a);
    case Answer(a, p) => AnswerUncrashed(net, s, a, p);
    case _ => QuietUncrashed(net, s, act);
  }

  lemma {:induction false} RunReached(net: Network, ss: seq<System>, acts: seq<Action>, k: nat)
    requires Run(net, ss, acts) && k < |ss| && CrashFree(acts[..k])
    ensures Reached(net, ss[k])
  {
    if k == 0 {
      InitUncrashed(net, ss[0]);
    } else {
      assert acts[..k][k - 1] == acts[k - 1];
      assert CrashFree(acts[..k - 1]) by {
        assert forall i :: 0 <= i < k - 1 ==> acts[..k - 1][i] == acts[..k][i];
      }
      RunReached(net, ss, acts, k - 1);
      hide Reached, Enabled, After;
      ReachedOn(net, ss[k - 1], acts[k - 1]);
    }
  }

  // ---- the way of a node that is not stuck

  /** t is s except that node x has moved on, and there may be more packets. */
  ghost predicate Moved(net: Network, s: System, t: System, x: int)
    requires net.Valid() && s.nodes.Keys == net.all && x in net.all
  {
    && Reached(net, t) && Leads(net, s, t)
    && (forall b :: b in net.all && b != x ==> t.nodes[b] == s.nodes[b])
    && s.packets <= t.packets
    && s.nodes[x].barrier <= t.nodes[x].barrier
  }

  lemma MovedOn(net: Network, s: System, act: Action, t: System, x: int)
    requires Reached(net, s) && Enabled(net, s, act) && !act.Crash? && x in net.all
    requires var u := After(net, s, act);
             && u.nodes.Keys == net.all && Moved(net, u, t, x)
             && (forall b :: b in net.all && b != x ==> u.nodes[b] == s.nodes[b])
             && s.packets <= u.packets && s.nodes[x].barrier <= u.nodes[x].barrier
    ensures Moved(net, s, t, x)
  {
    hide After, Enabled, Leads;
    LeadsOn(net, s, act, t);
  }

  lemma MovedNowhere(net: Network, s: System, x: int)
    requires Reached(net, s) && x in net.all
    ensures Moved(net, s, s, x)
  {
    LeadsNowhere(net, s);
  }

  lemma MovedThen(net: Network, s: System, t: System, u: System, x: int)
    requires net.Valid() && s.nodes.Keys == net.all == t.nodes.Keys && x in net.all
    requires Moved(net, s, t, x) && Moved(net, t, u, x)
    ensures Moved(net, s, u, x)
  {
    hide Reached, Leads;
    LeadsThen(net, s, t, u);
  }

  /** Everyone who is still starting can speak once more. */
  lemma {:induction false} AllSend(net: Network, s: System, todo: set<int>, x: int) returns (t: System)
    requires Reached(net, s) && todo <= net.all && x in net.all
    requires forall z :: z in todo ==> s.nodes[z].phase < 2
    ensures Moved(net, s, t, x) && t.nodes == s.nodes
    ensures forall z :: z in todo ==> Packet(z, Nothing, Sent(s.nodes[z])) in t.packets
    decreases |todo|
  {
    hide Reached, After, Enabled, Sent, Moved, Network.Valid;
    if todo == {} {
      t := s;
      MovedNowhere(net, s, x);
    } else {
      ReachedParts(net, s);
      Inhabited(todo);
      var z :| z in todo;
      SendIs(net, s, z);
      ReachedOn(net, s, Send(z));
      var u := After(net, s, Send(z));
      assert u.nodes == s.nodes && u.packets == s.packets + {Packet(z, Nothing, Sent(s.nodes[z]))};
      t := AllSend(net, u, todo - {z}, x);
      MovedOn(net, s, Send(z), t, x);
      MovedPackets(net, u, t, x);
      forall y | y in todo
        ensures Packet(y, Nothing, Sent(s.nodes[y])) in t.packets
      {
        assert y == z || y in todo - {z};
      }
    }
  }

  lemma MovedPackets(net: Network, s: System, t: System, x: int)
    requires net.Valid() && s.nodes.Keys == net.all && x in net.all && Moved(net, s, t, x)
    ensures s.packets <= t.packets && t.nodes.Keys == net.all && Reached(net, t)
  {
  }

  /** One packet heard by a node that is still starting. */
  lemma HearOne(net: Network, s: System, x: int, p: Packet)
    requires Reached(net, s) && x in net.all && s.nodes[x].phase < 2
    requires p in s.packets && p.Reaches(x) && !p.body.Change?
    ensures Enabled(net, s, Hear(x, p))
    ensures var u := After(net, s, Hear(x, p));
            && u.nodes.Keys == net.all && u.packets == s.packets && Reached(net, u)
            && (forall b :: b in net.all && b != x ==> u.nodes[b] == s.nodes[b])
            && (Recovery(p.body) ==> u.nodes[x].phase == 2)
            && (!Recovery(p.body) ==>
                  && u.nodes[x].peers == s.nodes[x].peers + {p.source}
                  && u.nodes[x].barrier == s.nodes[x].barrier + if p.body == Ready then {p.source} else {})
            && (u.nodes[x].phase == 2 ==> u.nodes[x].barrier == net.all)
            && u.nodes[x].id == s.nodes[x].id
            && 0 <= u.nodes[x].phase <= 2
  {
    hide Reached, Listen, Inv, NodeInv, PacketInv, After, Enabled, Uncrashed, Recovery, Network.Valid, Network.Count,
         Packet.Reaches;
    ReachedParts(net, s);
    HearEnabled(net, s, x, p);
    var learned := SomeInv(net, s);
    InvParts(net, s, learned);
    HearIs(net, s, x, p);
    ReachedOn(net, s, Hear(x, p));
    ListenSteps(net, x, s.nodes[x], p, learned);
    ListenPhase(net, x, s.nodes[x], p, learned);
  }

  lemma HearEnabled(net: Network, s: System, x: int, p: Packet)
    requires s.nodes.Keys == net.all && x in net.all && s.nodes[x].phase < 2
    requires p in s.packets && p.Reaches(x) && !p.body.Change?
    ensures Enabled(net, s, Hear(x, p))
  {
  }

  lemma ListenPhase(net: Network, a: int, n: Node, p: Packet, learned: set<int>)
    requires a in net.all && NodeInv(net, a, n, learned)
    ensures 0 <= Listen(n, net.Count(), p.source, p.body).phase <= 2
  {
    hide Rank;
  }

  /** A node that does not know everybody yet can learn everybody. */
  lemma {:induction false} HearAll(net: Network, s: System, x: int, todo: set<int>) returns (t: System)
    requires Reached(net, s) && x in net.all && s.nodes[x].phase == 0
    requires todo <= net.all && net.all <= s.nodes[x].peers + todo
    requires forall z :: z in todo ==> Packet(z, Nothing, Sent(s.nodes[z])) in s.packets
    ensures Moved(net, s, t, x) && t.nodes[x].phase == 1
    decreases |todo|
  {
    hide Reached, After, Enabled, Early, Moved, Network.Valid, Uncrashed, Recovery;
    ReachedParts(net, s);
    EarlyAtStart(net, s, x);
    EarlyMeans(net, s, x);
    PeersKnown(net, s, x);
    Inhabited(todo);
    var z :| z in todo;
    var p := Packet(z, Nothing, Sent(s.nodes[z]));
    SentMeans(s.nodes[z]);
    HearOne(net, s, x, p);
    HearEnabled(net, s, x, p);
    var u := After(net, s, Hear(x, p));
    assert x !in u.nodes[x].barrier;
    if u.nodes[x].phase == 0 {
      t := HearAll(net, u, x, todo - {z});
    } else {
      t := u;
      MovedNowhere(net, u, x);
    }
    MovedOn(net, s, Hear(x, p), t, x);
    MovedPackets(net, u, t, x);
  }

  lemma EarlyMeans(net: Network, s: System, x: int)
    requires s.nodes.Keys == net.all && x in net.all && Early(net, s, x)
    ensures s.nodes[x].peers != net.all && x !in s.nodes[x].barrier
  {
  }

  /** A node without all peers says Initial. */
  lemma SentMeans(n: Node)
    ensures !Recovery(Sent(n)) && !Sent(n).Change? && (n.phase == 0 <==> Sent(n) == Initial)
    ensures n.phase != 0 <==> Sent(n) == Ready
  {
  }

  lemma PeersKnown(net: Network, s: System, x: int)
    requires Reached(net, s) && x in net.all
    ensures s.nodes[x].peers <= net.all && s.nodes[x].barrier <= net.all && 0 <= s.nodes[x].phase <= 2
    ensures s.nodes[x].id.Just? ==> s.nodes[x].phase == 2
    ensures s.nodes[x].phase >= 1 ==> s.nodes[x].peers == net.all
    ensures forall p :: p in s.packets ==> p.source in net.all
  {
    var learned :| Inv(net, s, learned);
    assert NodeInv(net, x, s.nodes[x], learned);
    forall p | p in s.packets
      ensures p.source in net.all
    {
      assert PacketInv(net, p, learned);
    }
  }

  lemma LearnPeers(net: Network, s: System, x: int) returns (t: System)
    requires Reached(net, s) && x in net.all && s.nodes[x].phase == 0
    ensures Moved(net, s, t, x) && t.nodes[x].phase == 1
  {
    assert Early(net, s, x);
    var u := AllSend(net, s, net.all, x);
    MovedPackets(net, s, u, x);
    hide Early, Moved, Reached;
    t := HearAll(net, u, x, net.all);
    MovedThen(net, s, u, t, x);
  }

  /** From every node x has the Ready, or it is under way, or the node can still send it. */
  ghost predicate CanPass(net: Network, s: System, x: int)
    requires s.nodes.Keys == net.all && x in net.all
  {
    && s.nodes[x].phase < 2
    && forall y :: y in net.all ==>
         y in s.nodes[x].barrier || Packet(y, Nothing, Ready) in s.packets || s.nodes[y].phase < 2
  }

  /** Node y's Ready can be put under way. */
  lemma ReadyComes(net: Network, s: System, x: int, y: int) returns (t: System)
    requires Reached(net, s) && x in net.all && y in net.all && CanPass(net, s, x) && y !in s.nodes[x].barrier
    ensures Reached(net, t) && Leads(net, s, t) && CanPass(net, t, x)
    ensures Packet(y, Nothing, Ready) in t.packets && s.nodes[x].barrier <= t.nodes[x].barrier
  {
    hide Reached, Leads, Moved, Network.Valid, Uncrashed;
    ReachedParts(net, s);
    if Packet(y, Nothing, Ready) in s.packets {
      t := s;
      LeadsNowhere(net, s);
    } else {
      var u := s;
      PeersKnown(net, s, y);
      if s.nodes[y].phase == 0 {
        u := LearnPeers(net, s, y);
      } else {
        MovedNowhere(net, s, y);
      }
      MovedMeans(net, s, u, y);
      SentMeans(u.nodes[y]);
      t := AllSend(net, u, {y}, y);
      MovedMeans(net, u, t, y);
      LeadsThen(net, s, u, t);
    }
  }

  lemma MovedMeans(net: Network, s: System, t: System, x: int)
    requires net.Valid() && s.nodes.Keys == net.all && x in net.all && Moved(net, s, t, x)
    ensures t.nodes.Keys == net.all && Reached(net, t) && Leads(net, s, t) && s.packets <= t.packets
    ensures forall b :: b in net.all && b != x ==> t.nodes[b] == s.nodes[b]
    ensures s.nodes[x].barrier <= t.nodes[x].barrier
  {
    MovedPackets(net, s, t, x);
    hide Reached, Leads;
  }

  /** A node past the barrier connects. */
  lemma Connects(net: Network, s: System, x: int) returns (t: System)
    requires Reached(net, s) && x in net.all && s.nodes[x].phase == 2
    ensures Leads(net, s, t) && Connected(t, x) && Reached(net, t) && s.packets == t.packets
    ensures forall b :: b in net.all && b != x ==> t.nodes[b] == s.nodes[b]
    ensures t.nodes[x].peers == net.all && t.nodes[x].phase == 2
  {
    hide Reached, Leads, After, Enabled, Inv, Network.Valid, Uncrashed, AssignId;
    ReachedParts(net, s);
    PeersKnown(net, s, x);
    if s.nodes[x].id == Nothing {
      var learned := SomeInv(net, s);
      AssignIs(net, s, x);
      AssignInv(net, s, x, learned);
      ReachedOn(net, s, Assign(x));
      t := After(net, s, Assign(x));
      LeadsNowhere(net, t);
      LeadsOn(net, s, Assign(x), t);
    } else {
      t := s;
      LeadsNowhere(net, s);
    }
  }

  lemma AssignIs(net: Network, s: System, x: int)
    requires s.nodes.Keys == net.all == net.local.Keys && x in net.all
    requires s.nodes[x].phase == 2 && s.nodes[x].id == Nothing
    ensures Enabled(net, s, Assign(x))
    ensures var t := After(net, s, Assign(x));
            && t == s.(nodes := s.nodes[x := AssignId(s.nodes[x], net.local[x])])
            && t.nodes[x].peers == s.nodes[x].peers && t.nodes[x].phase == 2
  {
    hide Rank, Least;
  }

  lemma Missing(part: set<int>, all: set<int>)
    requires part <= all
    ensures part == all || all - part != {}
  {
    assert all == part + (all - part);
  }

  lemma {:induction false} PassesBarrier(net: Network, s: System, x: int) returns (t: System)
    requires Reached(net, s) && x in net.all && CanPass(net, s, x)
    ensures Leads(net, s, t) && Connected(t, x)
    decreases |net.all - s.nodes[x].barrier|
  {
    hide Reached, Leads, After, Enabled, CanPass, Network.Valid, Uncrashed, Recovery;
    ReachedParts(net, s);
    PeersKnown(net, s, x);
    StillMissing(net, s, x);
    Inhabited(net.all - s.nodes[x].barrier);
    Missing(s.nodes[x].barrier, net.all);
    var y :| y in net.all - s.nodes[x].barrier;
    var u := ReadyComes(net, s, x, y);
    ReachedParts(net, u);
    var p := Packet(y, Nothing, Ready);
    ReadyHeard(net, u, x, y);
    var v := After(net, u, Hear(x, p));
    Nearer(net.all, s.nodes[x].barrier, v.nodes[x].barrier, y);
    if v.nodes[x].phase == 2 {
      t := Connects(net, v, x);
    } else {
      t := PassesBarrier(net, v, x);
    }
    LeadsOn(net, u, Hear(x, p), t);
    LeadsThen(net, s, u, t);
  }

  lemma StillMissing(net: Network, s: System, x: int)
    requires Uncrashed(net, s) && x in net.all && CanPass(net, s, x)
    ensures s.nodes[x].barrier != net.all && s.nodes[x].phase < 2
  {
    hide Early;
  }

  lemma Nearer(all: set<int>, before: set<int>, now: set<int>, y: int)
    requires before <= now <= all && y in now && y in all && y !in before
    ensures |all - now| < |all - before|
  {
    SmallerSet(all - now, all - before);
    assert y in all - before;
  }

  /** Hearing a Ready leaves a node that can pass past the barrier, or able to pass. */
  lemma ReadyHeard(net: Network, s: System, x: int, y: int)
    requires Reached(net, s) && s.nodes.Keys == net.all == net.local.Keys && x in net.all && y in net.all
    requires CanPass(net, s, x) && Packet(y, Nothing, Ready) in s.packets
    ensures Enabled(net, s, Hear(x, Packet(y, Nothing, Ready)))
    ensures var v := After(net, s, Hear(x, Packet(y, Nothing, Ready)));
            && v.nodes.Keys == net.all && Reached(net, v)
            && s.nodes[x].barrier + {y} <= v.nodes[x].barrier <= net.all
            && (v.nodes[x].phase == 2 || CanPass(net, v, x))
  {
    hide Reached, After, Enabled, Uncrashed;
    var p := Packet(y, Nothing, Ready);
    HearOne(net, s, x, p);
    PeersKnown(net, After(net, s, Hear(x, p)), x);
  }

  /** A recovery packet connects its receiver. */
  lemma RecoveryConnects(net: Network, s: System, x: int, p: Packet) returns (t: System)
    requires Reached(net, s) && x in net.all && s.nodes[x].phase < 2
    requires p in s.packets && p.Reaches(x) && Recovery(p.body)
    ensures Leads(net, s, t) && Connected(t, x)
  {
    hide Reached, Leads, After, Enabled, Uncrashed;
    ReachedParts(net, s);
    HearOne(net, s, x, p);
    t := Connects(net, After(net, s, Hear(x, p)), x);
    LeadsOn(net, s, Hear(x, p), t);
  }

  /** An Initial of x under way to a node past the barrier connects x. */
  lemma AnswerConnects(net: Network, s: System, x: int, y: int, p: Packet) returns (t: System)
    requires Reached(net, s) && x in net.all && y in net.all && x != y
    requires s.nodes[x].phase < 2 && s.nodes[y].phase == 2
    requires p in s.packets && p.source == x && p.body == Initial
    ensures Leads(net, s, t) && Connected(t, x)
  {
    InitialTarget(net, s, p);
    hide Reached, Leads, After, Enabled, Uncrashed, Help, Network.Valid;
    ReachedParts(net, s);
    var u := Connects(net, s, y);
    ReachedParts(net, u);
    var act := Answer(y, p);
    AnswerEnabled(net, u, y, p);
    AnswerIs(net, u, y, p);
    ReachedOn(net, u, act);
    var q := Packet(y, Just(x), Help(u.nodes[y], x).value);
    t := RecoveryConnects(net, After(net, u, act), x, q);
    LeadsOn(net, u, act, t);
    LeadsThen(net, s, u, t);
  }

  lemma InitialTarget(net: Network, s: System, p: Packet)
    requires Reached(net, s) && p in s.packets && p.body == Initial
    ensures p.target == Nothing
  {
    hide Early, Inv;
  }

  lemma AnswerEnabled(net: Network, s: System, y: int, p: Packet)
    requires s.nodes.Keys == net.all && y in net.all && Connected(s, y) && s.nodes[y].peers == net.all
    requires p in s.packets && p.body == Initial && p.target == Nothing && p.source in net.all
    ensures Enabled(net, s, Answer(y, p))
    ensures Help(s.nodes[y], p.source).Just? && Recovery(Help(s.nodes[y], p.source).value)
  {
    hide Rank;
  }

  /** Once a node is past the barrier, everybody has learned everybody. */
  lemma NobodyEarly(net: Network, s: System, x: int, y: int)
    requires Reached(net, s) && x in net.all && y in net.all && s.nodes[y].phase >= 2
    ensures s.nodes[x].phase != 0
  {
    hide Inv;
  }

  /** A node that nobody keeps waiting can connect. */
  lemma NotStuckConnects(net: Network, s: System, x: int) returns (t: System)
    requires Reached(net, s) && x in net.all && forall y :: !Stuck(net, s, x, y)
    ensures Leads(net, s, t) && Connected(t, x)
  {
    PeersKnown(net, s, x);
    if s.nodes[x].phase == 2 {
      t := Connects(net, s, x);
    } else if CanPass(net, s, x) {
      t := PassesBarrier(net, s, x);
    } else {
      var y :| y in net.all && y !in s.nodes[x].barrier && Packet(y, Nothing, Ready) !in s.packets
               && s.nodes[y].phase >= 2;
      PeersKnown(net, s, y);
      NobodyEarly(net, s, x, y);
      assert s.nodes[x].barrier <= net.all - {y};
      var p := NotUseless(net, s, x, y);
      if Recovery(p.body) {
        t := RecoveryConnects(net, s, x, p);
      } else {
        t := AnswerConnects(net, s, x, y, p);
      }
    }
  }

  lemma NotUseless(net: Network, s: System, x: int, y: int) returns (p: Packet)
    requires Reached(net, s) && x in net.all && y in net.all && x != y && !Stuck(net, s, x, y)
    requires s.nodes[x].phase == 1 && s.nodes[y].phase == 2
    requires s.nodes[x].barrier <= net.all - {y} && Packet(y, Nothing, Ready) !in s.packets
    ensures p in s.packets && ((p.source == x && p.body == Initial) || (p.Reaches(x) && Recovery(p.body)))
  {
    PeersKnown(net, s, x);
    p :| p in s.packets && !Useless(net, p, x, y);
    assert p.source in net.all;
    assert p.source == y && p.body == Ready ==> p == Packet(y, Nothing, Ready);
  }

  /** A stuck node stays stuck in every continuation without crashes. */
  lemma {:induction false} StuckStays(net: Network, s: System, acts: seq<Action>, x: int, y: int)
    requires net.Valid() && Stuck(net, s, x, y) && CrashFree(acts) && Exec(net, s, acts).Just?
    ensures Stuck(net, Exec(net, s, acts).value, x, y)
    decreases |acts|
  {
    if acts != [] {
      assert forall i :: 0 <= i < |acts[1..]| ==> acts[1..][i] == acts[i + 1];
      hide Stuck, Enabled, After;
      StuckStep(net, s, acts[0], x, y);
      StuckStays(net, After(net, s, acts[0]), acts[1..], x, y);
    }
  }

  /** In every run without crashes so far: a node can still connect, without a crash, if and only if there is
      no node that it is stuck with. */
  lemma ConnectsIffNotStuck(net: Network, ss: seq<System>, acts: seq<Action>, k: nat, x: int)
    requires Run(net, ss, acts) && k < |ss| && CrashFree(acts[..k]) && x in net.all
    ensures (exists t :: Leads(net, ss[k], t) && Connected(t, x)) <==> forall y :: !Stuck(net, ss[k], x, y)
  {
    RunReached(net, ss, acts, k);
    var s := ss[k];
    hide Reached, Stuck;
    if forall y :: !Stuck(net, s, x, y) {
      var t := NotStuckConnects(net, s, x);
    } else {
      var y :| Stuck(net, s, x, y);
      forall t | Leads(net, s, t)
        ensures !Connected(t, x)
      {
        var more :| CrashFree(more) && Exec(net, s, more) == Just(t);
        StuckStays(net, s, more, x, y);
        StuckUnconnected(net, t, x, y);
      }
    }
  }

  lemma StuckUnconnected(net: Network, s: System, x: int, y: int)
    requires Stuck(net, s, x, y)
    ensures !Connected(s, x)
  {
  }
}
