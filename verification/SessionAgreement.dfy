/** What holds in every run of the session protocol, and what need not happen in any. */
module SessionAgreement {
  import opened ElevatorTypes
  import opened GlobalStates
  import opened SessionPeers
  import opened SessionProtocol

  lemma {:induction false} RunInv(net: Network, ss: seq<System>, acts: seq<Action>, k: nat)
    returns (learned: set<int>)
    requires Run(net, ss, acts) && k < |ss|
    ensures Inv(net, ss[k], learned)
    ensures forall b :: b in learned ==> KnewAll(net, ss, b, k)
  {
    hide Inv, Init, After, Enabled, KnewAll, Network.Valid, Run, Learned;
    RunStart(net, ss, acts);
    if k == 0 {
      InitInv(net, ss[0]);
      learned := {};
    } else {
      RunStep(net, ss, acts, k - 1);
      var before := RunInv(net, ss, acts, k - 1);
      StepInv(net, ss[k - 1], acts[k - 1], before);
      learned := Learned(net, ss[k - 1], acts[k - 1], before);
      forall b | b in learned
        ensures KnewAll(net, ss, b, k)
      {
        if b in before {
          KnewBefore(net, ss, b, k);
        } else {
          LearnedMeans(net, ss[k - 1], acts[k - 1], before, b);
          KnowsNow(net, ss, b, k);
        }
      }
    }
  }

  lemma RunStart(net: Network, ss: seq<System>, acts: seq<Action>)
    requires Run(net, ss, acts)
    ensures net.Valid() && |ss| == |acts| + 1 && Init(net, ss[0])
  {
    hide Enabled, After, Init, Network.Valid;
  }

  lemma RunLength(net: Network, ss: seq<System>, acts: seq<Action>)
    requires Run(net, ss, acts)
    ensures |ss| == |acts| + 1
  {
  }

  lemma RunStep(net: Network, ss: seq<System>, acts: seq<Action>, k: nat)
    requires Run(net, ss, acts) && k < |acts|
    ensures net.Valid() && |ss| == |acts| + 1 && ss[k].nodes.Keys == net.all == net.local.Keys
    ensures Enabled(net, ss[k], acts[k]) && ss[k + 1] == After(net, ss[k], acts[k])
  {
    ValidKeys(net);
    hide Enabled, After, Network.Valid;
  }

  lemma LearnedMeans(net: Network, s: System, act: Action, learned: set<int>, b: int)
    requires net.Valid() && s.nodes.Keys == net.all == net.local.Keys && Enabled(net, s, act)
    requires b in Learned(net, s, act, learned) && b !in learned
    ensures b in After(net, s, act).nodes && After(net, s, act).nodes[b].peers == net.all
  {
    hide Listen;
  }

  lemma KnewBefore(net: Network, ss: seq<System>, b: int, k: nat)
    requires 0 < k < |ss| && KnewAll(net, ss, b, k - 1)
    ensures KnewAll(net, ss, b, k)
  {
  }

  lemma KnowsNow(net: Network, ss: seq<System>, b: int, k: nat)
    requires k < |ss| && b in ss[k].nodes && ss[k].nodes[b].peers == net.all
    ensures KnewAll(net, ss, b, k)
  {
  }

  /** At this point of the run or earlier, the node knew every peer. */
  predicate KnewAll(net: Network, ss: seq<System>, b: int, k: nat)
    requires k < |ss|
  {
    exists j :: 0 <= j <= k && b in ss[j].nodes && ss[j].nodes[b].peers == net.all
  }

  predicate Connected(s: System, a: int) {
    a in s.nodes && s.nodes[a].id.Just?
  }

  /** Any two connected nodes, at any two moments of a run, hold the same peers. Their ids are the ranks of
      their addresses: different for different nodes, and the same for a node before and after a crash. */
  lemma SessionsAgree(net: Network, ss: seq<System>, acts: seq<Action>, j: nat, k: nat, a: int, b: int)
    requires Run(net, ss, acts) && j < |ss| && k < |ss|
    requires Connected(ss[j], a) && Connected(ss[k], b)
    ensures ss[j].nodes[a].peers == ss[k].nodes[b].peers == net.all
    ensures 0 <= ss[j].nodes[a].id.value < net.Count()
    ensures ss[j].nodes[a].id == ss[k].nodes[b].id <==> a == b
  {
    var _ := RunInv(net, ss, acts, j);
    var _ := RunInv(net, ss, acts, k);
    RanksOrder(net.all, a, b);
    if a != b {
      RanksDistinct(net.all, a, b);
    }
    hide PacketInv, Rank, Keyed;
  }

  /** When all nodes are connected, every id from 0 to count - 1 is taken. */
  lemma EveryIdIsTaken(net: Network, ss: seq<System>, acts: seq<Action>, k: nat, i: nat) returns (a: int)
    requires Run(net, ss, acts) && k < |ss| && i < net.Count()
    requires forall b :: b in net.all ==> Connected(ss[k], b)
    ensures a in ss[k].nodes && ss[k].nodes[a].id == Just(i)
  {
    var _ := RunInv(net, ss, acts, k);
    a := RankTaken(net.all, i);
    hide PacketInv, Rank, Keyed;
    assert Connected(ss[k], a);
  }

  /** A node passes the barrier only after every node has known all peers. */
  lemma BarrierMeansAllKnew(net: Network, ss: seq<System>, acts: seq<Action>, k: nat, a: int, b: int)
    requires Run(net, ss, acts) && k < |ss|
    requires a in net.all && b in net.all && a in ss[k].nodes && ss[k].nodes[a].phase == 2
    ensures KnewAll(net, ss, b, k)
  {
    var learned := RunInv(net, ss, acts, k);
    hide KnewAll, PacketInv;
  }

  /** The search for the own id always succeeds, and a recovered elevator goes by the id that the node
      computes from its peers. */
  lemma RecoveryKeepsIdentity(net: Network, ss: seq<System>, acts: seq<Action>, k: nat, a: int)
    requires Run(net, ss, acts) && k < |ss| && a in net.all && a in ss[k].nodes
    ensures var n := ss[k].nodes[a];
            && (n.recovery.Just? && n.id.Just? ==> n.recovery.value.id == n.id.value)
            && (n.elevator.Just? ==> n.elevator == n.id)
            && (n.phase == 2 ==> AssignId(n, net.local[a]).id == Just(Rank(net.all, a)))
            && Keyed(n.states)
  {
    var learned := RunInv(net, ss, acts, k);
    assert NodeInv(net, a, ss[k].nodes[a], learned);
    assert net.all * net.local[a] == {a};
    assert Least({a}) == a;
    hide PacketInv, Rank, Keyed;
  }

  // ---- start-up need not succeed

  /** Node x waits for the Ready of y, which is connected and no longer sends it. */
  predicate Stuck(net: Network, s: System, x: int, y: int) {
    && s.nodes.Keys == net.all && x in net.all && y in net.all && x != y
    && s.nodes[x].phase == 1 && s.nodes[x].peers == net.all && s.nodes[x].id == Nothing
    && s.nodes[x].barrier <= net.all - {y}
    && s.nodes[y].phase == 2
    && forall p :: p in s.packets ==> Useless(net, p, x, y)
  }

  /** The packet does not help x out. */
  predicate Useless(net: Network, p: Packet, x: int, y: int) {
    && p.source in net.all
    && (p.source == x ==> p.body != Initial)
    && (p.source == y ==> p.body != Ready)
    && (p.Reaches(x) ==> !p.body.RecoveryPeers? && !p.body.RecoveryState?)
  }

  lemma StuckStep(net: Network, s: System, act: Action, x: int, y: int)
    requires net.Valid() && Stuck(net, s, x, y) && Enabled(net, s, act)
    requires act != Crash(x) && act != Crash(y)
    ensures Stuck(net, After(net, s, act), x, y)
  {
    match act
    case Hear(a, p) =>
      assert Useless(net, p, x, y);
      if a == x {
        StillWaiting(net, s.nodes[x], p, x, y);
      }
      hide Useless, Listen;
    case Send(a) =>
      assert Useless(net, Packet(a, Nothing, Sent(s.nodes[a])), x, y);
      hide Useless;
    case Answer(a, p) =>
      assert Useless(net, p, x, y);
      assert p.source != x;
      if Help(s.nodes[a], p.source).Just? {
        assert Useless(net, Packet(a, Just(p.source), Help(s.nodes[a], p.source).value), x, y);
      }
      hide Useless, Help;
    case Publish(a, state) =>
      assert Useless(net, Packet(a, Nothing, Change(state)), x, y);
      hide Useless;
    case _ =>
      hide Useless, Rank;
  }

  lemma StillWaiting(net: Network, n: Node, p: Packet, x: int, y: int)
    requires y in net.all && n.phase == 1 && n.id == Nothing && n.peers == net.all && n.barrier <= net.all - {y}
    requires Useless(net, p, x, y) && p.Reaches(x) && !p.body.Change?
    ensures var m := Listen(n, net.Count(), p.source, p.body);
            m.phase == 1 && m.id == Nothing && m.peers == net.all && m.barrier <= net.all - {y}
  {
    var m := Received(n, p.source, p.body);
    assert m.peers == net.all && m.barrier <= net.all - {y};
    assert y !in m.barrier;
    SmallerSet(m.barrier, net.all);
  }

  lemma StuckWaits(net: Network, s: System, x: int, y: int)
    requires Stuck(net, s, x, y)
    ensures x in s.nodes && !Connected(s, x)
  {
  }

  /** Unless x or y crashes, x never connects. */
  lemma {:induction false} StuckForever(net: Network, ss: seq<System>, acts: seq<Action>, j: nat, k: nat,
                                        x: int, y: int)
    requires Run(net, ss, acts) && j <= k < |ss| && Stuck(net, ss[j], x, y)
    requires forall i :: j <= i < k ==> acts[i] != Crash(x) && acts[i] != Crash(y)
    ensures Stuck(net, ss[k], x, y) && !Connected(ss[k], x)
  {
    hide Run, Stuck, Enabled, After, Network.Valid, Connected;
    if j == k {
      StuckWaits(net, ss[k], x, y);
    } else {
      RunLength(net, ss, acts);
      RunStep(net, ss, acts, k - 1);
      StuckForever(net, ss, acts, j, k - 1, x, y);
      StuckStep(net, ss[k - 1], acts[k - 1], x, y);
      StuckWaits(net, ss[k], x, y);
    }
  }

  // ---- a run that gets stuck: two nodes, and the second one misses the only Ready of the first

  const PAIR := Network({1, 2}, map[1 := {1}, 2 := {2}])

  function Two(one: Node, two: Node, packets: set<Packet>): System {
    System(map[1 := one, 2 := two], packets)
  }

  function Starting(phase: int, peers: set<int>, barrier: set<int>): Node {
    FRESH.(phase := phase, peers := peers, barrier := barrier)
  }

  const I1 := Packet(1, Nothing, Initial)
  const I2 := Packet(2, Nothing, Initial)
  const R1 := Packet(1, Nothing, Ready)
  const R2 := Packet(2, Nothing, Ready)

  const HANGING_STATES: seq<System> := [
    Two(FRESH, FRESH, {}),
    Two(FRESH, FRESH, {I1}),
    Two(FRESH, FRESH, {I1, I2}),
    Two(Starting(0, {1}, {}), FRESH, {I1, I2}),
    Two(Starting(1, {1, 2}, {}), FRESH, {I1, I2}),
    Two(Starting(1, {1, 2}, {}), Starting(0, {1}, {}), {I1, I2}),
    Two(Starting(1, {1, 2}, {}), Starting(1, {1, 2}, {}), {I1, I2}),
    Two(Starting(1, {1, 2}, {}), Starting(1, {1, 2}, {}), {I1, I2, R1}),
    Two(Starting(1, {1, 2}, {}), Starting(1, {1, 2}, {}), {I1, I2, R1, R2}),
    Two(Starting(1, {1, 2}, {1}), Starting(1, {1, 2}, {}), {I1, I2, R1, R2}),
    Two(Starting(2, {1, 2}, {1, 2}), Starting(1, {1, 2}, {}), {I1, I2, R1, R2}),
    Two(Starting(2, {1, 2}, {1, 2}), Starting(1, {1, 2}, {}), {I1, I2, R2}),
    Two(Starting(2, {1, 2}, {1, 2}), Starting(1, {1, 2}, {}), {I1, R2})]

  const HANGING_ACTIONS: seq<Action> := [
    Send(1), Send(2), Hear(1, I1), Hear(1, I2), Hear(2, I1), Hear(2, I2),
    Send(1), Send(2), Hear(1, R1), Hear(1, R2), Lose(R1), Lose(I2)]

  lemma StartUpCanHang()
    ensures Run(PAIR, HANGING_STATES, HANGING_ACTIONS)
    ensures Stuck(PAIR, HANGING_STATES[12], 2, 1)
  {
    assert Init(PAIR, HANGING_STATES[0]);
    hide StepsTo, Run, Stuck, Init;
    forall k | 0 <= k < 12
      ensures StepsTo(HANGING_STATES[k], HANGING_ACTIONS[k], HANGING_STATES[k + 1])
    {
      HangingStep(k);
    }
    PairRuns(HANGING_STATES, HANGING_ACTIONS);
    HangsAtLast();
  }

  lemma PairRuns(ss: seq<System>, acts: seq<Action>)
    requires |ss| == |acts| + 1 && Init(PAIR, ss[0])
    requires forall k :: 0 <= k < |acts| ==> StepsTo(ss[k], acts[k], ss[k + 1])
    ensures Run(PAIR, ss, acts)
  {
    PairValid();
    hide Enabled, After, Init, Network.Valid;
    forall k | 0 <= k < |acts|
      ensures ss[k].nodes.Keys == PAIR.all
      ensures Enabled(PAIR, ss[k], acts[k]) && ss[k + 1] == After(PAIR, ss[k], acts[k])
    {
      assert StepsTo(ss[k], acts[k], ss[k + 1]);
    }
  }

  lemma PairValid()
    ensures PAIR.Valid() && PAIR.local.Keys == PAIR.all
  {
    assert {1} * {1, 2} == {1} && {2} * {1, 2} == {2};
    assert PAIR.local.Keys == {1, 2};
  }

  lemma HangsAtLast()
    ensures Stuck(PAIR, HANGING_STATES[12], 2, 1)
  {
    assert HANGING_STATES[12].packets == {I1, R2};
  }

  ghost predicate StepsTo(s: System, act: Action, t: System) {
    && s.nodes.Keys == PAIR.all == PAIR.local.Keys
    && Enabled(PAIR, s, act) && t == After(PAIR, s, act)
  }

  lemma PairSends(one: Node, two: Node, ps: set<Packet>, a: int)
    requires a == 1 || a == 2
    requires (if a == 1 then one else two).phase < 2
    ensures StepsTo(Two(one, two, ps), Send(a),
                    Two(one, two, ps + {Packet(a, Nothing, Sent(if a == 1 then one else two))}))
  {
    PairValid();
    hide Sent;
  }

  lemma PairLoses(one: Node, two: Node, ps: set<Packet>, p: Packet)
    ensures StepsTo(Two(one, two, ps), Lose(p), Two(one, two, ps - {p}))
  {
    PairValid();
  }

  lemma OneHears(one: Node, two: Node, ps: set<Packet>, p: Packet)
    requires one.phase < 2 && p in ps && p.target == Nothing && !p.body.Change?
    ensures StepsTo(Two(one, two, ps), Hear(1, p), Two(Listen(one, 2, p.source, p.body), two, ps))
  {
    PairValid();
    hide Listen;
    var s := Two(one, two, ps);
    assert s.nodes[1 := Listen(one, 2, p.source, p.body)] == Two(Listen(one, 2, p.source, p.body), two, ps).nodes;
  }

  lemma TwoHears(one: Node, two: Node, ps: set<Packet>, p: Packet)
    requires two.phase < 2 && p in ps && p.target == Nothing && !p.body.Change?
    ensures StepsTo(Two(one, two, ps), Hear(2, p), Two(one, Listen(two, 2, p.source, p.body), ps))
  {
    PairValid();
    hide Listen;
    var s := Two(one, two, ps);
    assert s.nodes[2 := Listen(two, 2, p.source, p.body)] == Two(one, Listen(two, 2, p.source, p.body), ps).nodes;
  }

  lemma HangingListens()
    ensures Listen(FRESH, 2, 1, Initial) == Starting(0, {1}, {})
    ensures Listen(Starting(0, {1}, {}), 2, 2, Initial) == Starting(1, {1, 2}, {})
    ensures Listen(Starting(1, {1, 2}, {}), 2, 1, Ready) == Starting(1, {1, 2}, {1})
    ensures Listen(Starting(1, {1, 2}, {1}), 2, 2, Ready) == Starting(2, {1, 2}, {1, 2})
  {
    assert {1} + {2} == {1, 2} && {1, 2} + {1} == {1, 2} && {1, 2} + {2} == {1, 2};
  }

  lemma HangingPackets()
    ensures {} + {I1} == {I1} && {I1} + {I2} == {I1, I2} && {I1, I2} + {R1} == {I1, I2, R1}
    ensures {I1, I2, R1} + {R2} == {I1, I2, R1, R2}
    ensures {I1, I2, R1, R2} - {R1} == {I1, I2, R2} && {I1, I2, R2} - {I2} == {I1, R2}
  {
  }

  lemma HangingStep(k: nat)
    requires k < 12
    ensures StepsTo(HANGING_STATES[k], HANGING_ACTIONS[k], HANGING_STATES[k + 1])
  {
    if k in {0, 1, 6, 7} {
      HangingSend(k);
    } else if k in {2, 3, 8, 9} {
      HangingHearOne(k);
    } else if k in {4, 5} {
      HangingHearTwo(k);
    } else {
      HangingLose(k);
    }
  }

  lemma HangingSend(k: nat)
    requires k in {0, 1, 6, 7}
    ensures StepsTo(HANGING_STATES[k], HANGING_ACTIONS[k], HANGING_STATES[k + 1])
  {
    HangingPackets();
    var one := Starting(1, {1, 2}, {});
    assert Sent(FRESH) == Initial && Sent(one) == Ready && one.phase == 1;
    hide StepsTo, Two, Starting, Sent;
    if k == 0 {
      PairSends(FRESH, FRESH, {}, 1);
    } else if k == 1 {
      PairSends(FRESH, FRESH, {I1}, 2);
    } else if k == 6 {
      PairSends(one, one, {I1, I2}, 1);
    } else {
      PairSends(one, one, {I1, I2, R1}, 2);
    }
  }

  lemma HangingHearOne(k: nat)
    requires k in {2, 3, 8, 9}
    ensures StepsTo(HANGING_STATES[k], HANGING_ACTIONS[k], HANGING_STATES[k + 1])
  {
    HangingListens();
    var some, one, ready := Starting(0, {1}, {}), Starting(1, {1, 2}, {}), Starting(1, {1, 2}, {1});
    assert some.phase == 0 && one.phase == 1 && ready.phase == 1;
    hide StepsTo, Listen, Two, Starting;
    if k == 2 {
      OneHears(FRESH, FRESH, {I1, I2}, I1);
    } else if k == 3 {
      OneHears(some, FRESH, {I1, I2}, I2);
    } else if k == 8 {
      OneHears(one, one, {I1, I2, R1, R2}, R1);
    } else {
      OneHears(ready, one, {I1, I2, R1, R2}, R2);
    }
  }

  lemma HangingHearTwo(k: nat)
    requires k in {4, 5}
    ensures StepsTo(HANGING_STATES[k], HANGING_ACTIONS[k], HANGING_STATES[k + 1])
  {
    HangingListens();
    var some, one := Starting(0, {1}, {}), Starting(1, {1, 2}, {});
    assert some.phase == 0;
    hide StepsTo, Listen, Two, Starting;
    if k == 4 {
      TwoHears(one, FRESH, {I1, I2}, I1);
    } else {
      TwoHears(one, some, {I1, I2}, I2);
    }
  }

  lemma HangingLose(k: nat)
    requires k in {10, 11}
    ensures StepsTo(HANGING_STATES[k], HANGING_ACTIONS[k], HANGING_STATES[k + 1])
  {
    HangingPackets();
    var past, one := Starting(2, {1, 2}, {1, 2}), Starting(1, {1, 2}, {});
    hide StepsTo, Two, Starting;
    if k == 10 {
      PairLoses(past, one, {I1, I2, R1, R2}, R1);
    } else {
      PairLoses(past, one, {I1, I2, R2}, I2);
    }
  }
}
