/** A cluster of gossip nodes over a network that may lose, duplicate and reorder packets, with
    nodes that may crash and never restart. */
module Cluster {
  import opened Membership
  import opened Runs

  datatype Node = Node(cfg: Config, st: NodeState, up: bool)

  datatype Cluster = Cluster(nodes: map<NodeId, Node>, net: multiset<Packet>)

  datatype Step =
    | Deliver(pkt: Packet)
    | Lose(pkt: Packet)
    | Duplicate(pkt: Packet)
    | AgeAt(id: NodeId)
    | ProbeAt(id: NodeId)
    | Crash(id: NodeId)

  ghost predicate Shaped(cl: Cluster) {
    forall id :: id in cl.nodes ==> cl.nodes[id].cfg.id == id && WellFormed(cl.nodes[id].cfg, cl.nodes[id].st)
  }

  ghost predicate Initial(cl: Cluster) {
    && cl.net == multiset{}
    && forall id :: id in cl.nodes ==>
         cl.nodes[id].cfg.id == id && ValidConfig(cl.nodes[id].cfg) && cl.nodes[id].up
         && exists seeds :: cl.nodes[id].st == InitialPrefix(cl.nodes[id].cfg, seeds)
  }

  predicate Up(cl: Cluster, id: NodeId) {
    id in cl.nodes && cl.nodes[id].up
  }

  predicate Enabled(cl: Cluster, s: Step) {
    match s
    case Deliver(pkt) => pkt in cl.net && Up(cl, pkt.dest)
    case Lose(pkt) => pkt in cl.net
    case Duplicate(pkt) => pkt in cl.net
    case AgeAt(id) => Up(cl, id)
    case ProbeAt(id) => Up(cl, id)
    case Crash(id) => Up(cl, id)
  }

  /** Node `id` moves to state `r.0` and sends `r.1`. */
  function Act(cl: Cluster, id: NodeId, r: (NodeState, seq<Packet>)): Cluster
    requires id in cl.nodes
  {
    Cluster(cl.nodes[id := cl.nodes[id].(st := r.0)], cl.net + multiset(r.1))
  }

  function Consume(cl: Cluster, pkt: Packet): Cluster {
    cl.(net := cl.net - multiset{pkt})
  }

  ghost function ReactionTo(cl: Cluster, pkt: Packet): (NodeState, seq<Packet>)
    requires Shaped(cl) && pkt.dest in cl.nodes
  {
    Handle(cl.nodes[pkt.dest].cfg, cl.nodes[pkt.dest].st, pkt.msg)
  }

  /** One step of the cluster; a step that is not enabled does nothing. */
  ghost function Next(cl: Cluster, s: Step): Cluster {
    if !Shaped(cl) || !Enabled(cl, s) then cl
    else
      match s
      case Deliver(pkt) => Act(Consume(cl, pkt), pkt.dest, ReactionTo(cl, pkt))
      case Lose(pkt) => Consume(cl, pkt)
      case Duplicate(pkt) => cl.(net := cl.net + multiset{pkt})
      case AgeAt(id) => Act(cl, id, (Age(cl.nodes[id].cfg, cl.nodes[id].st), []))
      case ProbeAt(id) => Act(cl, id, Probe(cl.nodes[id].cfg, cl.nodes[id].st))
      case Crash(id) => cl.(nodes := cl.nodes[id := cl.nodes[id].(up := false)])
  }

  // ----- a node's tick is a run of the cluster -----

  function Addressed(id: NodeId, inbox: seq<Message>): seq<Packet> {
    seq(|inbox|, i requires 0 <= i < |inbox| => Packet(id, inbox[i]))
  }

  function Deliveries(id: NodeId, inbox: seq<Message>): seq<Step> {
    seq(|inbox|, i requires 0 <= i < |inbox| => Deliver(Packet(id, inbox[i])))
  }

  lemma ActTwice(cl: Cluster, id: NodeId, r1: (NodeState, seq<Packet>), r2: (NodeState, seq<Packet>))
    requires id in cl.nodes
    ensures Act(Act(cl, id, r1), id, r2) == Act(cl, id, (r2.0, r1.1 + r2.1))
  {
    assert multiset(r1.1 + r2.1) == multiset(r1.1) + multiset(r2.1);
  }

  lemma ConsumeUnderAct(cl: Cluster, id: NodeId, r: (NodeState, seq<Packet>), pkt: Packet)
    requires id in cl.nodes && pkt in cl.net
    ensures Consume(Act(cl, id, r), pkt) == Act(Consume(cl, pkt), id, r)
  {
  }

  lemma ActShaped(cl: Cluster, id: NodeId, r: (NodeState, seq<Packet>))
    requires Shaped(cl) && id in cl.nodes && WellFormed(cl.nodes[id].cfg, r.0)
    ensures Shaped(Act(cl, id, r))
  {
  }

  lemma DeliverAfter(cl: Cluster, id: NodeId, h0: (NodeState, seq<Packet>), m: Message)
    requires Shaped(cl) && Up(cl, id) && WellFormed(cl.nodes[id].cfg, h0.0)
    requires Packet(id, m) in cl.net
    ensures
      var h1 := Handle(cl.nodes[id].cfg, h0.0, m);
      Next(Act(cl, id, h0), Deliver(Packet(id, m))) == Act(Consume(cl, Packet(id, m)), id, (h1.0, h0.1 + h1.1))
  {
    ActShaped(cl, id, h0);
    ConsumeUnderAct(cl, id, h0, Packet(id, m));
    ActTwice(Consume(cl, Packet(id, m)), id, h0, Handle(cl.nodes[id].cfg, h0.0, m));
  }

  lemma DrainOneMore(cl: Cluster, id: NodeId, taken: multiset<Packet>, h0: (NodeState, seq<Packet>), m: Message)
    requires Shaped(cl) && Up(cl, id) && WellFormed(cl.nodes[id].cfg, h0.0)
    requires taken + multiset{Packet(id, m)} <= cl.net
    ensures
      var h1 := Handle(cl.nodes[id].cfg, h0.0, m);
      Next(Act(cl.(net := cl.net - taken), id, h0), Deliver(Packet(id, m)))
        == Act(cl.(net := cl.net - (taken + multiset{Packet(id, m)})), id, (h1.0, h0.1 + h1.1))
  {
    hide Next, WellFormed, Handle, Act;
    var rest := cl.(net := cl.net - taken);
    assert Shaped(rest) && Packet(id, m) in rest.net;
    DeliverAfter(rest, id, h0, m);
    assert Consume(rest, Packet(id, m)) == cl.(net := cl.net - (taken + multiset{Packet(id, m)}));
  }

  lemma {:induction false} DrainIsRun(cl: Cluster, id: NodeId, inbox: seq<Message>)
    requires Shaped(cl) && Up(cl, id)
    requires multiset(Addressed(id, inbox)) <= cl.net
    ensures Run(Next, cl, Deliveries(id, inbox))
      == Act(cl.(net := cl.net - multiset(Addressed(id, inbox))), id,
             HandleAll(cl.nodes[id].cfg, cl.nodes[id].st, inbox))
  {
    hide Next, WellFormed, Handle;
    if inbox == [] {
      assert cl.nodes[id := cl.nodes[id]] == cl.nodes;
    } else {
      var init, m := inbox[..|inbox| - 1], inbox[|inbox| - 1];
      assert Addressed(id, inbox) == Addressed(id, init) + [Packet(id, m)];
      assert Deliveries(id, inbox) == Deliveries(id, init) + [Deliver(Packet(id, m))];
      DrainIsRun(cl, id, init);
      RunSnoc(Next, cl, Deliveries(id, init), Deliver(Packet(id, m)));
      DrainOneMore(cl, id, multiset(Addressed(id, init)), HandleAll(cl.nodes[id].cfg, cl.nodes[id].st, init), m);
    }
  }

  lemma AgeAfter(cl: Cluster, id: NodeId, h: (NodeState, seq<Packet>))
    requires Shaped(cl) && Up(cl, id) && WellFormed(cl.nodes[id].cfg, h.0)
    ensures Next(Act(cl, id, h), AgeAt(id)) == Act(cl, id, (Age(cl.nodes[id].cfg, h.0), h.1))
  {
    ActShaped(cl, id, h);
    ActTwice(cl, id, h, (Age(cl.nodes[id].cfg, h.0), []));
    assert h.1 + [] == h.1;
  }

  lemma ProbeAfter(cl: Cluster, id: NodeId, h: (NodeState, seq<Packet>))
    requires Shaped(cl) && Up(cl, id) && WellFormed(cl.nodes[id].cfg, h.0)
    ensures
      var p := Probe(cl.nodes[id].cfg, h.0);
      Next(Act(cl, id, h), ProbeAt(id)) == Act(cl, id, (p.0, h.1 + p.1))
  {
    ActShaped(cl, id, h);
    ActTwice(cl, id, h, Probe(cl.nodes[id].cfg, h.0));
  }

  lemma AgeThenProbe(cl: Cluster, id: NodeId, h: (NodeState, seq<Packet>))
    requires Shaped(cl) && Up(cl, id) && WellFormed(cl.nodes[id].cfg, h.0)
    ensures WellFormed(cl.nodes[id].cfg, Age(cl.nodes[id].cfg, h.0))
    ensures
      var p := Probe(cl.nodes[id].cfg, Age(cl.nodes[id].cfg, h.0));
      Next(Next(Act(cl, id, h), AgeAt(id)), ProbeAt(id)) == Act(cl, id, (p.0, h.1 + p.1))
  {
    AgeKeeps(cl.nodes[id].cfg, h.0);
    AgeAfter(cl, id, h);
    ProbeAfter(cl, id, (Age(cl.nodes[id].cfg, h.0), h.1));
  }

  /** Draining any packets addressed to a live node and ticking it is one run, whose effect on the
      node and on the network is what `Tick` says. */
  lemma TickIsRun(cl: Cluster, id: NodeId, inbox: seq<Message>)
    requires Shaped(cl) && Up(cl, id)
    requires multiset(Addressed(id, inbox)) <= cl.net
    ensures Run(Next, cl, Deliveries(id, inbox) + [AgeAt(id)] + [ProbeAt(id)])
      == Act(cl.(net := cl.net - multiset(Addressed(id, inbox))), id,
             Tick(cl.nodes[id].cfg, cl.nodes[id].st, inbox))
  {
    DrainIsRun(cl, id, inbox);
    RunSnoc(Next, cl, Deliveries(id, inbox), AgeAt(id));
    RunSnoc(Next, cl, Deliveries(id, inbox) + [AgeAt(id)], ProbeAt(id));
    AgeThenProbe(cl.(net := cl.net - multiset(Addressed(id, inbox))), id,
                 HandleAll(cl.nodes[id].cfg, cl.nodes[id].st, inbox));
  }

  // ----- the incarnation ceiling -----

  /** The incarnation only `p` itself can raise; 0 for an id no node has. */
  function OwnInc(cl: Cluster, p: NodeId): int {
    if p in cl.nodes then cl.nodes[p].st.inc else 0
  }

  ghost predicate Bounded(cl: Cluster, us: seq<Update>) {
    forall i :: 0 <= i < |us| ==> 0 <= us[i].inc <= OwnInc(cl, us[i].id)
  }

  ghost predicate ViewBounded(cl: Cluster, n: NodeState) {
    forall p :: p in n.members ==> 0 <= n.members[p].inc <= OwnInc(cl, p)
  }

  /** A digest as an honest sender writes it: one self entry, ALIVE, at the head. */
  ghost predicate Honest(m: Message) {
    && |m.gossip| > 0
    && m.gossip[0].id == m.sender && m.gossip[0].state == Alive
    && forall i :: 1 <= i < |m.gossip| ==> m.gossip[i].id != m.sender
  }

  ghost predicate NodesBounded(cl: Cluster) {
    forall id :: id in cl.nodes ==> 0 <= cl.nodes[id].st.inc && ViewBounded(cl, cl.nodes[id].st)
  }

  ghost predicate NetBounded(cl: Cluster) {
    forall pkt :: pkt in cl.net ==> Bounded(cl, pkt.msg.gossip)
  }

  /** No view and no digest in flight is above a node's own incarnation. */
  ghost predicate Ceiling(cl: Cluster) {
    NodesBounded(cl) && NetBounded(cl)
  }

  ghost predicate Inv(cl: Cluster) {
    Shaped(cl) && Ceiling(cl) && forall pkt :: pkt in cl.net ==> Honest(pkt.msg)
  }

  /** Everything a node in state `n` sends names it as sender and carries its digest. */
  ghost predicate Outgoing(c: Config, n: NodeState, sent: seq<Packet>)
    requires WellFormed(c, n)
  {
    forall pkt :: pkt in sent ==> pkt.msg.sender == c.id && pkt.msg.gossip == Digest(c, n)
  }

  lemma DigestIgnoresSeqNo(c: Config, a: NodeState, b: NodeState)
    requires WellFormed(c, a) && WellFormed(c, b)
    requires a.members == b.members && a.order == b.order && a.inc == b.inc
    ensures Digest(c, a) == Digest(c, b)
  {
  }

  lemma {:induction false} ProbeOutgoing(c: Config, n: NodeState, k: nat)
    requires WellFormed(c, n) && k <= |n.order|
    ensures Outgoing(c, n, ProbePrefix(c, n, k).1)
  {
    if k > 0 {
      ProbeOutgoing(c, n, k - 1);
      DigestIgnoresSeqNo(c, n, ProbePrefix(c, n, k - 1).0);
    }
  }

  lemma HandleOutgoing(c: Config, n: NodeState, m: Message)
    requires WellFormed(c, n)
    ensures Outgoing(c, Handle(c, n, m).0, Handle(c, n, m).1)
  {
    if Usable(m.sender) && m.isPing {
      var heard := MarkHeard(c, MergeAll(c, n, m.gossip), m.sender);
      DigestIgnoresSeqNo(c, heard, Handle(c, n, m).0);
    }
  }

  lemma DigestHonest(cl: Cluster, c: Config, n: NodeState, m: Message)
    requires WellFormed(c, n) && ViewBounded(cl, n) && 0 <= n.inc <= OwnInc(cl, c.id)
    requires m.sender == c.id && m.gossip == Digest(c, n)
    ensures Honest(m) && Bounded(cl, m.gossip)
  {
    forall i | 1 <= i < |m.gossip|
      ensures m.gossip[i].id != c.id && 0 <= m.gossip[i].inc <= OwnInc(cl, m.gossip[i].id)
    {
      assert m.gossip[i].id in n.members;
    }
  }

  /** A frame accuses its receiver when it reports it as not ALIVE at its current incarnation. */
  ghost predicate AccusedNow(c: Config, n: NodeState, us: seq<Update>) {
    Usable(c.id) && exists i :: 0 <= i < |us| && us[i].id == c.id && us[i].state != Alive && us[i].inc == n.inc
  }

  lemma HandleOwn(c: Config, n: NodeState, m: Message)
    requires WellFormed(c, n)
    requires forall i :: 0 <= i < |m.gossip| && m.gossip[i].id == c.id ==> m.gossip[i].inc <= n.inc
    ensures Handle(c, n, m).0.inc == n.inc + if AccusedNow(c, n, m.gossip) then 1 else 0
  {
    MergeIsJoin(c, n, m.gossip);
    if AccusedNow(c, n, m.gossip) {
      assert Accuses(c, m.gossip, n.inc + 1);
    }
  }

  lemma MergeViewBounded(cl: Cluster, c: Config, n: NodeState, us: seq<Update>, p: NodeId)
    requires c.id !in n.members && ViewBounded(cl, n) && Bounded(cl, us)
    ensures
      var r := MergeAll(c, n, us);
      p in r.members ==> 0 <= r.members[p].inc <= OwnInc(cl, p)
  {
    var r := MergeAll(c, n, us);
    MergeIsJoin(c, n, us);
    assert IsJoinAt(c, n, us, r, p);
    if p in r.members && !(p in n.members && KeyOf(n.members[p]) == KeyOf(r.members[p])) {
      var i :| 0 <= i < |us| && us[i].id == p && Key(us[i].inc, us[i].state) == KeyOf(r.members[p]);
      assert us[i].inc == r.members[p].inc;
    }
  }

  lemma HandleViewBounded(cl: Cluster, c: Config, n: NodeState, m: Message)
    requires WellFormed(c, n) && ViewBounded(cl, n) && Bounded(cl, m.gossip)
    requires 0 <= OwnInc(cl, m.sender)
    ensures ViewBounded(cl, Handle(c, n, m).0)
  {
    var merged := MergeAll(c, n, m.gossip);
    forall p | p in merged.members ensures 0 <= merged.members[p].inc <= OwnInc(cl, p) {
      MergeViewBounded(cl, c, n, m.gossip, p);
    }
    assert ViewBounded(cl, merged);
    assert ViewBounded(cl, MarkHeard(c, merged, m.sender));
    var heard := if Usable(m.sender) then MarkHeard(c, merged, m.sender) else merged;
    assert Handle(c, n, m).0.members == heard.members;
  }

  /** A node's move keeps the invariant when the node stays in bounds, its own incarnation does not
      fall, and it sends only its own digest. */
  lemma ActInv(cl: Cluster, id: NodeId, r: (NodeState, seq<Packet>))
    requires Inv(cl) && id in cl.nodes
    requires WellFormed(cl.nodes[id].cfg, r.0) && ViewBounded(cl, r.0)
    requires cl.nodes[id].st.inc <= r.0.inc
    requires Outgoing(cl.nodes[id].cfg, r.0, r.1)
    ensures Inv(Act(cl, id, r))
  {
    var after := Act(cl, id, r);
    assert forall p :: OwnInc(cl, p) <= OwnInc(after, p);
    forall n: NodeState | ViewBounded(cl, n) ensures ViewBounded(after, n) {
      forall p | p in n.members ensures n.members[p].inc <= OwnInc(after, p) {
        assert OwnInc(cl, p) <= OwnInc(after, p);
      }
    }
    forall pkt | pkt in after.net ensures Bounded(after, pkt.msg.gossip) && Honest(pkt.msg) {
      if pkt in r.1 {
        DigestHonest(after, cl.nodes[id].cfg, r.0, pkt.msg);
      } else {
        assert pkt in cl.net;
        forall i | 0 <= i < |pkt.msg.gossip|
          ensures 0 <= pkt.msg.gossip[i].inc <= OwnInc(after, pkt.msg.gossip[i].id)
        {
          assert OwnInc(cl, pkt.msg.gossip[i].id) <= OwnInc(after, pkt.msg.gossip[i].id);
        }
      }
    }
  }

  lemma OwnNonNegative(cl: Cluster)
    requires Inv(cl)
    ensures forall p :: 0 <= OwnInc(cl, p)
  {
  }

  /** Losing or repeating packets, and crashing, keep the invariant: no node moves. */
  lemma SameNodesInv(cl: Cluster, r: Cluster)
    requires Inv(cl) && r.nodes.Keys == cl.nodes.Keys
    requires forall id :: id in cl.nodes ==> r.nodes[id].cfg == cl.nodes[id].cfg && r.nodes[id].st == cl.nodes[id].st
    requires forall pkt :: pkt in r.net ==> pkt in cl.net
    ensures Inv(r)
  {
    assert forall p :: OwnInc(r, p) == OwnInc(cl, p);
    assert NodesBounded(r) by {
      forall id | id in r.nodes ensures 0 <= r.nodes[id].st.inc && ViewBounded(r, r.nodes[id].st) {
        assert ViewBounded(cl, cl.nodes[id].st);
      }
    }
    forall pkt | pkt in r.net ensures Bounded(r, pkt.msg.gossip) && Honest(pkt.msg) {
      assert Bounded(cl, pkt.msg.gossip);
    }
  }

  lemma ReactionFits(cl: Cluster, pkt: Packet)
    requires Inv(cl) && Enabled(cl, Deliver(pkt))
    ensures
      var c, n, r := cl.nodes[pkt.dest].cfg, cl.nodes[pkt.dest].st, ReactionTo(cl, pkt);
      && WellFormed(c, r.0) && ViewBounded(cl, r.0) && Outgoing(c, r.0, r.1)
      && r.0.inc == n.inc + if AccusedNow(c, n, pkt.msg.gossip) then 1 else 0
  {
    var c, n := cl.nodes[pkt.dest].cfg, cl.nodes[pkt.dest].st;
    OwnNonNegative(cl);
    assert Bounded(cl, pkt.msg.gossip) && ViewBounded(cl, n);
    HandleViewBounded(cl, c, n, pkt.msg);
    HandleOwn(c, n, pkt.msg);
    HandleOutgoing(c, n, pkt.msg);
  }

  lemma ProbeFits(c: Config, n: NodeState)
    requires WellFormed(c, n)
    ensures Outgoing(c, Probe(c, n).0, Probe(c, n).1)
  {
    ProbeOutgoing(c, n, |n.order|);
    DigestIgnoresSeqNo(c, n, Probe(c, n).0);
  }

  lemma DeliverInv(cl: Cluster, pkt: Packet)
    requires Inv(cl) && Enabled(cl, Deliver(pkt))
    ensures Inv(Act(Consume(cl, pkt), pkt.dest, ReactionTo(cl, pkt)))
  {
    var rest := Consume(cl, pkt);
    SameNodesInv(cl, rest);
    ReactionFits(cl, pkt);
    assert forall p :: OwnInc(rest, p) == OwnInc(cl, p);
    assert ViewBounded(rest, ReactionTo(cl, pkt).0);
    ActInv(rest, pkt.dest, ReactionTo(cl, pkt));
  }

  lemma AgeInv(cl: Cluster, id: NodeId)
    requires Inv(cl) && id in cl.nodes
    ensures Inv(Act(cl, id, (Age(cl.nodes[id].cfg, cl.nodes[id].st), [])))
  {
    AgeKeeps(cl.nodes[id].cfg, cl.nodes[id].st);
    assert ViewBounded(cl, cl.nodes[id].st);
    ActInv(cl, id, (Age(cl.nodes[id].cfg, cl.nodes[id].st), []));
  }

  lemma ProbeInv(cl: Cluster, id: NodeId)
    requires Inv(cl) && id in cl.nodes
    ensures Inv(Act(cl, id, Probe(cl.nodes[id].cfg, cl.nodes[id].st)))
  {
    assert ViewBounded(cl, cl.nodes[id].st);
    ProbeFits(cl.nodes[id].cfg, cl.nodes[id].st);
    ActInv(cl, id, Probe(cl.nodes[id].cfg, cl.nodes[id].st));
  }

  lemma {:induction false} NextInv(cl: Cluster, s: Step)
    requires Inv(cl)
    ensures Inv(Next(cl, s))
  {
    hide Handle, Probe, Age, WellFormed, Ceiling, Honest;
    if Enabled(cl, s) {
      match s
      case Deliver(pkt) => DeliverInv(cl, pkt);
      case Lose(pkt) => SameNodesInv(cl, Consume(cl, pkt));
      case Duplicate(pkt) => SameNodesInv(cl, cl.(net := cl.net + multiset{pkt}));
      case AgeAt(id) => AgeInv(cl, id);
      case ProbeAt(id) => ProbeInv(cl, id);
      case Crash(id) => SameNodesInv(cl, cl.(nodes := cl.nodes[id := cl.nodes[id].(up := false)]));
    }
  }

  /** What a step makes of one node's state. */
  ghost function StateAfter(cl: Cluster, s: Step, id: NodeId): NodeState
    requires Shaped(cl) && id in cl.nodes
  {
    var c, n := cl.nodes[id].cfg, cl.nodes[id].st;
    if !Enabled(cl, s) then n
    else if s.Deliver? && s.pkt.dest == id then Handle(c, n, s.pkt.msg).0
    else if s == AgeAt(id) then Age(c, n)
    else if s == ProbeAt(id) then Probe(c, n).0
    else n
  }

  lemma NextKeys(cl: Cluster, s: Step)
    ensures Next(cl, s).nodes.Keys == cl.nodes.Keys
  {
    hide Handle, Probe, Age, WellFormed;
  }

  lemma NextState(cl: Cluster, s: Step, id: NodeId)
    requires Shaped(cl) && id in cl.nodes
    ensures id in Next(cl, s).nodes && Next(cl, s).nodes[id].cfg == cl.nodes[id].cfg
    ensures Next(cl, s).nodes[id].st == StateAfter(cl, s, id)
    ensures Next(cl, s).nodes.Keys == cl.nodes.Keys
  {
    hide Handle, Probe, Age, WellFormed;
    if Enabled(cl, s) && s.Deliver? {
      assert ReactionTo(cl, s.pkt) == Handle(cl.nodes[s.pkt.dest].cfg, cl.nodes[s.pkt.dest].st, s.pkt.msg);
    }
  }

  /** Only a node itself raises its incarnation, by exactly one, and exactly when a delivered packet
      reports it as not ALIVE at its current incarnation. */
  lemma {:induction false} OnlyOwnerRaises(cl: Cluster, s: Step, p: NodeId)
    requires Inv(cl)
    ensures OwnInc(Next(cl, s), p) == OwnInc(cl, p) +
      if s.Deliver? && Enabled(cl, s) && s.pkt.dest == p
         && AccusedNow(cl.nodes[p].cfg, cl.nodes[p].st, s.pkt.msg.gossip) then 1 else 0
  {
    hide Handle, Next, WellFormed, AccusedNow, ViewBounded, Outgoing, Bounded;
    if p in cl.nodes {
      NextState(cl, s, p);
      if s.Deliver? && Enabled(cl, s) {
        ReactionFits(cl, s.pkt);
      }
    } else {
      NextKeys(cl, s);
    }
  }

  lemma InitialInv(cl: Cluster)
    requires Initial(cl)
    ensures Inv(cl)
  {
    forall id | id in cl.nodes
      ensures WellFormed(cl.nodes[id].cfg, cl.nodes[id].st) && cl.nodes[id].st.inc == 0
      ensures forall p :: p in cl.nodes[id].st.members ==> cl.nodes[id].st.members[p].inc == 0
    {
      var seeds :| cl.nodes[id].st == InitialPrefix(cl.nodes[id].cfg, seeds);
      InitialFacts(cl.nodes[id].cfg, seeds);
    }
    assert forall p :: OwnInc(cl, p) == 0;
  }

  lemma ReachableInv(start: Cluster, steps: seq<Step>)
    requires Initial(start)
    ensures Inv(Run(Next, start, steps))
  {
    InitialInv(start);
    forall cl, s | Inv(cl) ensures Inv(Next(cl, s)) {
      NextInv(cl, s);
    }
    RunInvariant(Next, Inv, start, steps);
  }

  /** In every run from a fresh cluster, no view and no digest in flight is above the subject's own
      incarnation. */
  lemma {:induction false} IncarnationCeiling(start: Cluster, steps: seq<Step>)
    requires Initial(start)
    ensures Ceiling(Run(Next, start, steps))
  {
    ReachableInv(start, steps);
  }

  // ----- refutation -----

  lemma NextViewsBounded(cl: Cluster, s: Step, id: NodeId)
    requires Inv(cl) && id in cl.nodes
    ensures id in Next(cl, s).nodes && ViewBounded(cl, Next(cl, s).nodes[id].st)
  {
    hide Next, Handle, WellFormed, Outgoing, AccusedNow;
    assert ViewBounded(cl, cl.nodes[id].st);
    NextState(cl, s, id);
    if s.Deliver? && Enabled(cl, s) {
      ReactionFits(cl, s.pkt);
    }
  }

  /** When a node refutes, its new ALIVE entry overrides every view and every entry in flight. */
  lemma {:induction false} RefutationSupersedesEverywhere(cl: Cluster, s: Step, x: NodeId)
    requires Inv(cl) && OwnInc(Next(cl, s), x) != OwnInc(cl, x)
    ensures
      var r := Next(cl, s);
      var k := OwnInc(r, x);
      && (forall id :: id in r.nodes && x in r.nodes[id].st.members ==>
            Supersedes(Alive, k, r.nodes[id].st.members[x].state, r.nodes[id].st.members[x].inc))
      && (forall pkt, i :: pkt in cl.net && 0 <= i < |pkt.msg.gossip| && pkt.msg.gossip[i].id == x ==>
            Supersedes(Alive, k, pkt.msg.gossip[i].state, pkt.msg.gossip[i].inc))
  {
    OnlyOwnerRaises(cl, s, x);
    forall id | id in Next(cl, s).nodes ensures ViewBounded(cl, Next(cl, s).nodes[id].st) {
      NextKeys(cl, s);
      NextViewsBounded(cl, s, id);
    }
    forall pkt, i | pkt in cl.net && 0 <= i < |pkt.msg.gossip| && pkt.msg.gossip[i].id == x
      ensures pkt.msg.gossip[i].inc < OwnInc(Next(cl, s), x)
    {
      assert Bounded(cl, pkt.msg.gossip);
    }
  }

  lemma {:induction false} MergeWithout(c: Config, n: NodeState, us: seq<Update>, x: NodeId)
    requires forall i :: 0 <= i < |us| ==> us[i].id != x
    ensures
      var r := MergeAll(c, n, us);
      (x in r.members <==> x in n.members) && (x in n.members ==> r.members[x] == n.members[x])
  {
    if us != [] {
      MergeWithout(c, n, us[..|us| - 1], x);
    }
  }

  lemma MergeHonest(c: Config, n: NodeState, m: Message)
    requires Honest(m)
    ensures
      var x, r, first := m.sender, MergeAll(c, n, m.gossip), MergeOne(c, n, m.gossip[0]);
      (x in r.members <==> x in first.members) && (x in r.members ==> r.members[x] == first.members[x])
  {
    var us := m.gossip;
    assert us == [us[0]] + us[1..];
    assert [us[0]][..0] == [];
    assert MergeAll(c, n, [us[0]]) == MergeOne(c, MergeAll(c, n, []), us[0]);
    MergeBatches(c, n, [us[0]], us[1..]);
    MergeWithout(c, MergeOne(c, n, us[0]), us[1..], m.sender);
  }

  /** Hearing from `x` directly makes it ALIVE, unless it is already held DEAD at the incarnation
      the frame carries or above. */
  lemma HearingRevives(c: Config, n: NodeState, m: Message)
    requires WellFormed(c, n) && Honest(m) && m.sender != c.id && Usable(m.sender)
    ensures
      var x, k, after := m.sender, m.gossip[0].inc, Handle(c, n, m).0.members;
      (x in after && after[x].state == Alive) <==>
      if x in n.members then !(n.members[x].state == Dead && n.members[x].inc >= k) else c.mayLearn(x)
  {
    MergeHonest(c, n, m);
  }

  // ----- bounded failure detection -----

  function Patience(c: Config): int {
    c.suspectAfter + c.deadAfter
  }

  /** How many more ticks a node with this view of `x` can go on seeing it as not DEAD, when `x`
      stopped at incarnation `top`. */
  function Potential(c: Config, n: NodeState, x: NodeId, top: int): int {
    if x !in n.members then (top + 1) * Patience(c)
    else
      var m := n.members[x];
      (top - m.inc) * Patience(c) +
      if m.state == Dead then 0
      else if m.ticks < Patience(c) then Patience(c) - m.ticks
      else 1
  }

  lemma FewerLevels(top: int, lo: int, hi: int, t: int)
    requires lo < hi && t >= 0
    ensures (top - hi) * t + t <= (top - lo) * t
  {
    assert (top - lo) * t == (top - hi) * t + (hi - lo) * t;
    assert (hi - lo) * t == (hi - lo - 1) * t + t;
    assert (hi - lo - 1) * t >= 0;
  }

  lemma MergeOnePotential(c: Config, n: NodeState, u: Update, x: NodeId, top: int)
    requires ValidConfig(c) && (u.id == x ==> 0 <= u.inc)
    ensures Potential(c, MergeOne(c, n, u), x, top) <= Potential(c, n, x, top)
  {
    if Usable(u.id) && u.id == x && x != c.id {
      if x !in n.members {
        FewerLevels(top, -1, u.inc, Patience(c));
      } else if n.members[x].inc < u.inc {
        FewerLevels(top, n.members[x].inc, u.inc, Patience(c));
      }
    }
  }

  lemma {:induction false} MergePotential(c: Config, n: NodeState, us: seq<Update>, x: NodeId, top: int)
    requires ValidConfig(c) && forall i :: 0 <= i < |us| && us[i].id == x ==> 0 <= us[i].inc
    ensures Potential(c, MergeAll(c, n, us), x, top) <= Potential(c, n, x, top)
  {
    if us != [] {
      MergePotential(c, n, us[..|us| - 1], x, top);
      MergeOnePotential(c, MergeAll(c, n, us[..|us| - 1]), us[|us| - 1], x, top);
    }
  }

  predicate SeesLive(n: NodeState, x: NodeId) {
    x in n.members && n.members[x].state != Dead
  }

  /** One tick of a node that sees `x` as not DEAD uses up at least one unit. */
  lemma AgePotential(c: Config, n: NodeState, x: NodeId, top: int)
    requires WellFormed(c, n)
    ensures Potential(c, Age(c, n), x, top) + (if SeesLive(n, x) then 1 else 0) <= Potential(c, n, x, top)
  {
    if SeesLive(n, x) {
      var m := n.members[x];
      assert AgeMember(c, m).inc == m.inc;
      assert (top - m.inc) * Patience(c) == (top - AgeMember(c, m).inc) * Patience(c);
    }
  }

  lemma HandlePotential(c: Config, n: NodeState, m: Message, x: NodeId, top: int)
    requires WellFormed(c, n) && m.sender != x
    requires forall i :: 0 <= i < |m.gossip| && m.gossip[i].id == x ==> 0 <= m.gossip[i].inc
    ensures Potential(c, Handle(c, n, m).0, x, top) <= Potential(c, n, x, top)
  {
    MergePotential(c, n, m.gossip, x, top);
    var merged, r := MergeAll(c, n, m.gossip), Handle(c, n, m).0;
    assert x in r.members <==> x in merged.members;
    assert x in merged.members ==> r.members[x] == merged.members[x];
  }

  /** `x` has stopped for good: it is down and none of its own frames is still in flight. */
  ghost predicate Silent(cl: Cluster, x: NodeId) {
    x in cl.nodes && !cl.nodes[x].up && forall pkt :: pkt in cl.net ==> pkt.msg.sender != x
  }

  ghost predicate SilentAt(cl: Cluster, x: NodeId, top: int, id: NodeId, c: Config) {
    Inv(cl) && Silent(cl, x) && OwnInc(cl, x) == top && id in cl.nodes && cl.nodes[id].cfg == c
  }

  lemma SilentAct(cl: Cluster, a: NodeId, r: (NodeState, seq<Packet>), x: NodeId)
    requires Silent(cl, x) && Up(cl, a) && cl.nodes[a].cfg.id == a
    requires WellFormed(cl.nodes[a].cfg, r.0) && Outgoing(cl.nodes[a].cfg, r.0, r.1)
    ensures Silent(Act(cl, a, r), x)
  {
  }

  lemma SilenceKept(cl: Cluster, s: Step, x: NodeId)
    requires Inv(cl) && Silent(cl, x)
    ensures Silent(Next(cl, s), x)
  {
    if Enabled(cl, s) {
      if s.Deliver? {
        ReactionFits(cl, s.pkt);
        assert Silent(Consume(cl, s.pkt), x);
        SilentAct(Consume(cl, s.pkt), s.pkt.dest, ReactionTo(cl, s.pkt), x);
      } else if s.ProbeAt? {
        ProbeFits(cl.nodes[s.id].cfg, cl.nodes[s.id].st);
        SilentAct(cl, s.id, Probe(cl.nodes[s.id].cfg, cl.nodes[s.id].st), x);
      }
    }
  }

  lemma SameViewPotential(c: Config, n: NodeState, r: NodeState, x: NodeId, top: int)
    requires r.members == n.members
    ensures Potential(c, r, x, top) == Potential(c, n, x, top)
  {
  }

  lemma StepPotential(cl: Cluster, s: Step, id: NodeId, x: NodeId, top: int)
    requires Inv(cl) && Silent(cl, x) && id in cl.nodes
    ensures
      var c, n := cl.nodes[id].cfg, cl.nodes[id].st;
      Potential(c, StateAfter(cl, s, id), x, top) + LiveTick(id, x)(cl, s) <= Potential(c, n, x, top)
  {
    hide Handle, Age, WellFormed, Potential;
    if Enabled(cl, s) {
      var c, n := cl.nodes[id].cfg, cl.nodes[id].st;
      if s.Deliver? && s.pkt.dest == id {
        assert Bounded(cl, s.pkt.msg.gossip);
        HandlePotential(c, n, s.pkt.msg, x, top);
      } else if s == AgeAt(id) {
        AgePotential(c, n, x, top);
      } else {
        SameViewPotential(c, n, StateAfter(cl, s, id), x, top);
      }
    }
  }

  /** 1 for a tick of the live node `id` at which it sees `x` as not DEAD, else 0. */
  ghost function LiveTick(id: NodeId, x: NodeId): (Cluster, Step) -> nat {
    (cl: Cluster, s: Step) =>
      if s == AgeAt(id) && Up(cl, id) && SeesLive(cl.nodes[id].st, x) then 1 else 0
  }

  lemma PotentialNonNegative(cl: Cluster, id: NodeId, x: NodeId)
    requires Inv(cl) && id in cl.nodes
    ensures Potential(cl.nodes[id].cfg, cl.nodes[id].st, x, OwnInc(cl, x)) >= 0
  {
    var n, t, top := cl.nodes[id].st, Patience(cl.nodes[id].cfg), OwnInc(cl, x);
    OwnNonNegative(cl);
    if x in n.members {
      assert ViewBounded(cl, n);
      assert (top - n.members[x].inc) * t >= 0;
    } else {
      assert (top + 1) * t >= 0;
    }
  }

  lemma PotentialAtMost(cl: Cluster, id: NodeId, x: NodeId)
    requires Inv(cl) && id in cl.nodes
    ensures
      var view := cl.nodes[id].st.members;
      var i := if x in view then view[x].inc else 0;
      Potential(cl.nodes[id].cfg, cl.nodes[id].st, x, OwnInc(cl, x))
        <= (OwnInc(cl, x) - i + 1) * Patience(cl.nodes[id].cfg)
  {
    var n, t, top := cl.nodes[id].st, Patience(cl.nodes[id].cfg), OwnInc(cl, x);
    if x in n.members {
      assert (top - n.members[x].inc + 1) * t == (top - n.members[x].inc) * t + t;
    }
  }

  ghost function PhiAt(cl: Cluster, x: NodeId, top: int, id: NodeId): int {
    if id in cl.nodes then Potential(cl.nodes[id].cfg, cl.nodes[id].st, x, top) else 0
  }

  lemma DetectionStep(cl: Cluster, s: Step, x: NodeId, top: int, id: NodeId, c: Config)
    requires SilentAt(cl, x, top, id, c)
    ensures SilentAt(Next(cl, s), x, top, id, c)
    ensures PhiAt(Next(cl, s), x, top, id) + LiveTick(id, x)(cl, s) <= PhiAt(cl, x, top, id)
  {
    NextInv(cl, s);
    SilenceKept(cl, s, x);
    NextState(cl, s, id);
    OnlyOwnerRaises(cl, s, x);
    StepPotential(cl, s, id, x, top);
  }

  lemma {:induction false} DetectionRun(cl: Cluster, steps: seq<Step>, x: NodeId, top: int, id: NodeId, c: Config)
    requires SilentAt(cl, x, top, id, c)
    decreases |steps|
    ensures SilentAt(Run(Next, cl, steps), x, top, id, c)
    ensures Total(Next, LiveTick(id, x), cl, steps) + PhiAt(Run(Next, cl, steps), x, top, id) <= PhiAt(cl, x, top, id)
  {
    hide Next, SilentAt, PhiAt;
    if steps != [] {
      DetectionStep(cl, steps[0], x, top, id, c);
      DetectionRun(Next(cl, steps[0]), steps[1..], x, top, id, c);
    }
  }

  /** Bounded failure detection. From any reachable cluster in which `x` has stopped at incarnation c
      and none of its own frames is in flight, whatever old gossip still arrives and in whatever
      order, a node whose view of `x` is at incarnation i (0 if `x` is unknown to it) ticks at most
      (c - i + 1) * (suspectAfter + deadAfter) times while seeing `x` as not DEAD. */
  lemma {:induction false} BoundedDetection(start: Cluster, before: seq<Step>, after: seq<Step>, id: NodeId, x: NodeId)
    requires Initial(start)
    requires Silent(Run(Next, start, before), x) && id in Run(Next, start, before).nodes
    ensures
      var cl := Run(Next, start, before);
      var view := cl.nodes[id].st.members;
      var i := if x in view then view[x].inc else 0;
      Total(Next, LiveTick(id, x), cl, after) <= (OwnInc(cl, x) - i + 1) * Patience(cl.nodes[id].cfg)
  {
    hide Next, Inv, Silent, Initial, Potential, LiveTick;
    ReachableInv(start, before);
    var cl := Run(Next, start, before);
    var c, top := cl.nodes[id].cfg, OwnInc(cl, x);
    DetectionRun(cl, after, x, top, id, c);
    PotentialNonNegative(Run(Next, cl, after), id, x);
    PotentialAtMost(cl, id, x);
  }
}
