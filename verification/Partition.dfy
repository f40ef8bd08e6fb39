/** Where refutation stops helping: once two sides of a cluster hold each other DEAD and nothing is in flight
    between them, no run brings them together again. */
module Partition {
  import opened Common
  import opened Membership
  import opened Runs
  import opened Cluster
  import opened Silence

  /** Everybody outside `side` is the other side. */
  predicate Across(side: set<NodeId>, a: NodeId, b: NodeId) {
    (a in side) != (b in side)
  }

  /** `n`, the state of a node `id`, holds nobody across but as DEAD. */
  ghost predicate ViewSplit(side: set<NodeId>, id: NodeId, n: NodeState) {
    forall p :: p in n.members && Across(side, id, p) ==> n.members[p].state == Dead
  }

  /** `us` says nothing of anybody across from `id` but that it is DEAD. */
  ghost predicate GossipSplit(side: set<NodeId>, id: NodeId, us: seq<Update>) {
    forall i :: 0 <= i < |us| && Across(side, id, us[i].id) ==> us[i].state == Dead
  }

  /** A packet that stays on one side. */
  ghost predicate PacketSplit(side: set<NodeId>, pkt: Packet) {
    !Across(side, pkt.dest, pkt.msg.sender) && GossipSplit(side, pkt.dest, pkt.msg.gossip)
  }

  ghost predicate Split(side: set<NodeId>, cl: Cluster) {
    && Shaped(cl)
    && (forall id :: id in cl.nodes ==> ViewSplit(side, id, cl.nodes[id].st))
    && (forall pkt :: pkt in cl.net ==> PacketSplit(side, pkt))
  }

  lemma {:induction false} MergeSplit(side: set<NodeId>, c: Config, n: NodeState, us: seq<Update>)
    requires ViewSplit(side, c.id, n) && GossipSplit(side, c.id, us)
    ensures ViewSplit(side, c.id, MergeAll(c, n, us))
  {
    if us != [] {
      MergeSplit(side, c, n, us[..|us| - 1]);
    }
  }

  lemma DigestSplit(side: set<NodeId>, c: Config, n: NodeState, dest: NodeId)
    requires WellFormed(c, n) && ViewSplit(side, c.id, n) && !Across(side, dest, c.id)
    ensures GossipSplit(side, dest, Digest(c, n))
  {}

  ghost predicate SentSplit(side: set<NodeId>, sent: seq<Packet>) {
    forall i :: 0 <= i < |sent| ==> PacketSplit(side, sent[i])
  }

  lemma HandleSplit(side: set<NodeId>, c: Config, n: NodeState, pkt: Packet)
    requires WellFormed(c, n) && ViewSplit(side, c.id, n) && pkt.dest == c.id && PacketSplit(side, pkt)
    ensures ViewSplit(side, c.id, Handle(c, n, pkt.msg).0) && SentSplit(side, Handle(c, n, pkt.msg).1)
  {
    hide WellFormed, Digest;
    MergeKeeps(c, n, pkt.msg.gossip);
    var merged := MergeAll(c, n, pkt.msg.gossip);
    MergeSplit(side, c, n, pkt.msg.gossip);
    if Usable(pkt.msg.sender) {
      MarkHeardKeeps(c, merged, pkt.msg.sender);
      var heard := MarkHeard(c, merged, pkt.msg.sender);
      assert ViewSplit(side, c.id, heard);
      DigestSplit(side, c, heard, pkt.msg.sender);
    }
  }

  lemma {:induction false} ProbeSplit(side: set<NodeId>, c: Config, n: NodeState, k: nat)
    requires WellFormed(c, n) && ViewSplit(side, c.id, n) && k <= |n.order|
    ensures SentSplit(side, ProbePrefix(c, n, k).1)
  {
    hide WellFormed, Digest, GossipSplit;
    if k > 0 {
      ProbeSplit(side, c, n, k - 1);
      ProbedOneMore(c, n, k - 1);
      var before := ProbePrefix(c, n, k - 1).0;
      if n.members[n.order[k - 1]].state != Dead {
        DigestSplit(side, c, before, n.order[k - 1]);
      }
    }
  }

  lemma ActSplit(side: set<NodeId>, cl: Cluster, id: NodeId, r: (NodeState, seq<Packet>))
    requires Split(side, cl) && id in cl.nodes && WellFormed(cl.nodes[id].cfg, r.0)
    requires ViewSplit(side, id, r.0) && SentSplit(side, r.1)
    ensures Split(side, Act(cl, id, r))
  {
    hide ViewSplit, PacketSplit, WellFormed;
    forall pkt | pkt in multiset(r.1) ensures PacketSplit(side, pkt) {
      assert pkt in r.1;
    }
  }

  lemma NextSplit(side: set<NodeId>, cl: Cluster, s: Step)
    requires Split(side, cl)
    ensures Split(side, Next(cl, s))
  {
    hide ViewSplit, PacketSplit, SentSplit, WellFormed, Handle, Age, Probe, ProbePrefix;
    if Enabled(cl, s) {
      match s
      case Deliver(pkt) =>
        HandleSplit(side, cl.nodes[pkt.dest].cfg, cl.nodes[pkt.dest].st, pkt);
        ActSplit(side, Consume(cl, pkt), pkt.dest, ReactionTo(cl, pkt));
      case AgeAt(id) =>
        AgeSplit(side, cl.nodes[id].cfg, cl.nodes[id].st);
        NoneSent(side);
        ActSplit(side, cl, id, (Age(cl.nodes[id].cfg, cl.nodes[id].st), []));
      case ProbeAt(id) =>
        ProbeRoundSplit(side, cl.nodes[id].cfg, cl.nodes[id].st);
        ActSplit(side, cl, id, Probe(cl.nodes[id].cfg, cl.nodes[id].st));
      case _ =>
    }
  }

  lemma NoneSent(side: set<NodeId>)
    ensures SentSplit(side, [])
  {}

  lemma AgeSplit(side: set<NodeId>, c: Config, n: NodeState)
    requires WellFormed(c, n) && ViewSplit(side, c.id, n)
    ensures WellFormed(c, Age(c, n)) && ViewSplit(side, c.id, Age(c, n))
  {
    AgeKeeps(c, n);
  }

  lemma ProbeRoundSplit(side: set<NodeId>, c: Config, n: NodeState)
    requires WellFormed(c, n) && ViewSplit(side, c.id, n)
    ensures WellFormed(c, Probe(c, n).0) && ViewSplit(side, c.id, Probe(c, n).0) && SentSplit(side, Probe(c, n).1)
  {
    ProbeSplit(side, c, n, |n.order|);
  }

  /** Once split, a cluster stays split in every run: nobody ever holds a node across but as DEAD, though all of
      them may be up, able to reach each other and never again lose a packet. */
  lemma {:induction false} SplitIsForever(side: set<NodeId>, cl: Cluster, steps: seq<Step>)
    requires Split(side, cl)
    ensures Split(side, Run(Next, cl, steps))
    decreases |steps|
  {
    hide Split, Next;
    if steps != [] {
      NextSplit(side, cl, steps[0]);
      SplitIsForever(side, Next(cl, steps[0]), steps[1..]);
    }
  }

  // ----- a hiccup that splits -----

  /** Two nodes, both up, with one configuration and what each holds of the other; nothing is in flight. */
  function Two(a: Config, b: Config, ofB: Member, ofA: Member): Cluster {
    Cluster(map[
      a.id := Node(a, NodeState(map[b.id := ofB], [b.id], 0, 0), true),
      b.id := Node(b, NodeState(map[a.id := ofA], [a.id], 0, 0), true)], multiset{})
  }

  ghost predicate Acquainted(a: Config, b: Config) {
    ValidConfig(a) && ValidConfig(b) && a.id != b.id
  }

  ghost predicate Patient(c: Config, m: Member) {
    m.state == Alive ==> m.ticks < c.suspectAfter
  }

  function Ages(id: NodeId, k: nat): seq<Step> {
    seq(k, i => AgeAt(id))
  }

  lemma TwoShaped(a: Config, b: Config, ofB: Member, ofA: Member)
    requires Acquainted(a, b) && Patient(a, ofB) && Patient(b, ofA)
    ensures Shaped(Two(a, b, ofB, ofA))
  {
    ListsOne(a.id, ofA);
    ListsOne(b.id, ofB);
  }

  lemma ListsOne(p: NodeId, m: Member)
    ensures Listing([p], map[p := m].Keys)
  {
    assert [p][..0] == [];
    assert map[p := m].Keys - {p} == {};
    assert Listing([], {});
  }

  lemma AgeA(a: Config, b: Config, ofB: Member, ofA: Member)
    requires Acquainted(a, b) && Patient(a, ofB) && Patient(b, ofA)
    ensures Patient(a, AgeMember(a, ofB))
    ensures Next(Two(a, b, ofB, ofA), AgeAt(a.id)) == Two(a, b, AgeMember(a, ofB), ofA)
  {
    hide AgeMember, Shaped;
    TwoShaped(a, b, ofB, ofA);
    AgedIsPatient(a, ofB);
    var cl := Two(a, b, ofB, ofA);
    assert Age(a, cl.nodes[a.id].st) == NodeState(map[b.id := AgeMember(a, ofB)], [b.id], 0, 0);
  }

  lemma AgeB(a: Config, b: Config, ofB: Member, ofA: Member)
    requires Acquainted(a, b) && Patient(a, ofB) && Patient(b, ofA)
    ensures Patient(b, AgeMember(b, ofA))
    ensures Next(Two(a, b, ofB, ofA), AgeAt(b.id)) == Two(a, b, ofB, AgeMember(b, ofA))
  {
    hide AgeMember, Shaped;
    TwoShaped(a, b, ofB, ofA);
    AgedIsPatient(b, ofA);
    var cl := Two(a, b, ofB, ofA);
    assert Age(b, cl.nodes[b.id].st) == NodeState(map[a.id := AgeMember(b, ofA)], [a.id], 0, 0);
  }

  lemma AgedIsPatient(c: Config, m: Member)
    requires Patient(c, m)
    ensures Patient(c, AgeMember(c, m))
  {}

  lemma {:induction false} AgesA(a: Config, b: Config, ofB: Member, ofA: Member, k: nat)
    requires Acquainted(a, b) && Patient(a, ofB) && Patient(b, ofA)
    ensures Patient(a, Aged(a, ofB, k))
    ensures Run(Next, Two(a, b, ofB, ofA), Ages(a.id, k)) == Two(a, b, Aged(a, ofB, k), ofA)
    decreases k
  {
    hide Next, Two, AgeMember, Acquainted, Patient;
    if k > 0 {
      AgesA(a, b, ofB, ofA, k - 1);
      AgeA(a, b, Aged(a, ofB, k - 1), ofA);
      assert Ages(a.id, k) == Ages(a.id, k - 1) + [AgeAt(a.id)];
      RunSnoc(Next, Two(a, b, ofB, ofA), Ages(a.id, k - 1), AgeAt(a.id));
    }
  }

  lemma {:induction false} AgesB(a: Config, b: Config, ofB: Member, ofA: Member, k: nat)
    requires Acquainted(a, b) && Patient(a, ofB) && Patient(b, ofA)
    ensures Patient(b, Aged(b, ofA, k))
    ensures Run(Next, Two(a, b, ofB, ofA), Ages(b.id, k)) == Two(a, b, ofB, Aged(b, ofA, k))
    decreases k
  {
    hide Next, Two, AgeMember, Acquainted, Patient;
    if k > 0 {
      AgesB(a, b, ofB, ofA, k - 1);
      AgeB(a, b, ofB, Aged(b, ofA, k - 1));
      assert Ages(b.id, k) == Ages(b.id, k - 1) + [AgeAt(b.id)];
      RunSnoc(Next, Two(a, b, ofB, ofA), Ages(b.id, k - 1), AgeAt(b.id));
    }
  }

  /** As many ticks at each node as it is patient for, in which nothing arrives. */
  function Quiet(a: Config, b: Config): seq<Step>
    requires ValidConfig(a) && ValidConfig(b)
  {
    Ages(a.id, a.suspectAfter + a.deadAfter) + Ages(b.id, b.suspectAfter + b.deadAfter)
  }

  /** Both nodes are up, hold each other DEAD, and will for ever. */
  ghost predicate Estranged(a: Config, b: Config, cl: Cluster) {
    && Split({a.id}, cl) && Up(cl, a.id) && Up(cl, b.id)
    && b.id in cl.nodes[a.id].st.members && cl.nodes[a.id].st.members[b.id].state == Dead
    && a.id in cl.nodes[b.id].st.members && cl.nodes[b.id].st.members[a.id].state == Dead
  }

  lemma TwoEstranged(a: Config, b: Config, ofB: Member, ofA: Member)
    requires Acquainted(a, b) && ofB.state == Dead && ofA.state == Dead
    ensures Estranged(a, b, Two(a, b, ofB, ofA))
  {
    hide WellFormed, Shaped;
    TwoShaped(a, b, ofB, ofA);
  }

  /** From two nodes that seed each other, `suspect_after + dead_after` ticks at each in which nothing arrives
      leave them split, both up. */
  lemma {:induction false} HiccupSplits(a: Config, b: Config)
    requires Acquainted(a, b)
    ensures var start := Two(a, b, Member(0, Alive, 0), Member(0, Alive, 0));
      Initial(start) && Estranged(a, b, Run(Next, start, Quiet(a, b)))
  {
    hide Next, Two, AgeMember, Estranged, Initial;
    var m := Member(0, Alive, 0);
    var s, t := a.suspectAfter + a.deadAfter, b.suspectAfter + b.deadAfter;
    TwoInitial(a, b);
    AgesA(a, b, m, m, s);
    AgesB(a, b, Aged(a, m, s), m, t);
    RunAppend(Next, Two(a, b, m, m), Ages(a.id, s), Ages(b.id, t));
    Timeline(a, m, s);
    Timeline(b, m, t);
    TwoEstranged(a, b, Aged(a, m, s), Aged(b, m, t));
  }

  lemma TwoInitial(a: Config, b: Config)
    requires Acquainted(a, b)
    ensures Initial(Two(a, b, Member(0, Alive, 0), Member(0, Alive, 0)))
  {
    OneSeed(a, b.id);
    OneSeed(b, a.id);
  }

  lemma OneSeed(c: Config, s: NodeId)
    requires s.name != "" && s != c.id
    ensures InitialPrefix(c, [s]) == NodeState(map[s := Member(0, Alive, 0)], [s], 0, 0)
  {
    assert [s][..0] == [];
    assert InitialPrefix(c, []) == NodeState(map[], [], 0, 0);
  }

  // ----- while one side still listens -----

  lemma NextUp(cl: Cluster, s: Step, id: NodeId)
    requires Shaped(cl) && Up(cl, id) && !s.Crash?
    ensures Up(Next(cl, s), id)
  {
    hide Handle, Probe, Age, WellFormed;
  }

  lemma ProbeSends(cl: Cluster, x: NodeId, pkt: Packet)
    requires Shaped(cl) && Up(cl, x) && pkt in Probe(cl.nodes[x].cfg, cl.nodes[x].st).1
    ensures pkt in Next(cl, ProbeAt(x)).net
  {
    hide Probe, WellFormed;
  }

  lemma DeliverySends(cl: Cluster, pkt: Packet, reply: Packet)
    requires Shaped(cl) && pkt in cl.net && Up(cl, pkt.dest)
    requires reply in Handle(cl.nodes[pkt.dest].cfg, cl.nodes[pkt.dest].st, pkt.msg).1
    ensures reply in Next(cl, Deliver(pkt)).net
  {
    hide Handle, WellFormed;
    assert reply in ReactionTo(cl, pkt).1;
  }

  lemma {:induction false} ProbeReaches(c: Config, n: NodeState, i: nat, k: nat) returns (pkt: Packet)
    requires WellFormed(c, n) && i < k <= |n.order| && n.order[i] in n.members && n.members[n.order[i]].state != Dead
    ensures pkt in ProbePrefix(c, n, k).1 && pkt.dest == n.order[i] && pkt.msg.isPing
    decreases k
  {
    hide WellFormed, Digest;
    ProbedOneMore(c, n, k - 1);
    if i < k - 1 {
      pkt := ProbeReaches(c, n, i, k - 1);
    } else {
      pkt := Packet(n.order[i], Encode(c, ProbePrefix(c, n, k - 1).0, true));
    }
  }

  /** The view of `p` that `id` holds, if any. */
  function View(cl: Cluster, id: NodeId, p: NodeId): Option<Member> {
    if id in cl.nodes && p in cl.nodes[id].st.members then Some(cl.nodes[id].st.members[p]) else None
  }

  ghost predicate Pinged(cl: Cluster, x: NodeId, y: NodeId) {
    && Inv(cl) && Up(cl, x) && Up(cl, y) && x != y && Usable(x) && Usable(y)
    && View(cl, x, y).Some? && View(cl, x, y).value.state != Dead
  }

  /** What a ping finds: the receiver holds the sender DEAD where the ping's incarnation cannot reach it. */
  ghost predicate HeldDead(cl: Cluster, y: NodeId, x: NodeId) {
    View(cl, y, x).Some? && View(cl, y, x).value.state == Dead && View(cl, y, x).value.inc >= OwnInc(cl, x)
  }

  /** A packet in flight from `x` with the digest of `x`'s present state. */
  ghost predicate Carries(cl: Cluster, pkt: Packet, x: NodeId) {
    && Shaped(cl) && x in cl.nodes && pkt in cl.net
    && pkt.msg.sender == x && pkt.msg.gossip == Digest(cl.nodes[x].cfg, cl.nodes[x].st)
  }

  lemma SendPing(cl: Cluster, x: NodeId, y: NodeId) returns (pkt: Packet)
    requires Pinged(cl, x, y)
    ensures var r := Next(cl, ProbeAt(x));
      && Inv(r) && Up(r, x) && Up(r, y) && Carries(r, pkt, x) && pkt.dest == y && pkt.msg.isPing
      && r.nodes[x].cfg == cl.nodes[x].cfg && r.nodes[y].cfg == cl.nodes[y].cfg
      && View(r, x, y) == View(cl, x, y) && View(r, y, x) == View(cl, y, x) && OwnInc(r, x) == OwnInc(cl, x)
  {
    hide Next, Inv, WellFormed, ProbePrefix, Digest;
    var c, n := cl.nodes[x].cfg, cl.nodes[x].st;
    InvShaped(cl);
    WellListed(c, n);
    var i :| 0 <= i < |n.order| && n.order[i] == y;
    pkt := ProbeReaches(c, n, i, |n.order|);
    ProbeOutgoing(c, n, |n.order|);
    DigestIgnoresSeqNo(c, n, Probe(c, n).0);
    ProbeSends(cl, x, pkt);
    NextInv(cl, ProbeAt(x));
    InvShaped(Next(cl, ProbeAt(x)));
    NextState(cl, ProbeAt(x), x);
    NextState(cl, ProbeAt(x), y);
    NextUp(cl, ProbeAt(x), x);
    NextUp(cl, ProbeAt(x), y);
  }

  lemma InvShaped(cl: Cluster)
    requires Inv(cl)
    ensures Shaped(cl)
    ensures forall id :: id in cl.nodes ==> cl.nodes[id].cfg.id == id && WellFormed(cl.nodes[id].cfg, cl.nodes[id].st)
  {}

  /** Delivering a ping makes its receiver hold the sender ALIVE, or leaves it held DEAD where it was; either way
      an ack carries the receiver's view back. */
  lemma DeliverPing(cl: Cluster, pkt: Packet, x: NodeId, y: NodeId) returns (ack: Packet)
    requires Inv(cl) && Up(cl, x) && Up(cl, y) && x != y && Usable(x) && Carries(cl, pkt, x)
    requires pkt.dest == y && pkt.msg.isPing && (View(cl, y, x).Some? || cl.nodes[y].cfg.mayLearn(x))
    ensures var r := Next(cl, Deliver(pkt));
      && Inv(r) && Up(r, x) && Up(r, y) && Carries(r, ack, y) && ack.dest == x
      && r.nodes[x] == cl.nodes[x] && r.nodes[y].cfg == cl.nodes[y].cfg
      && View(r, y, x).Some?
      && View(r, y, x).value.state == (if HeldDead(cl, y, x) then Dead else Alive)
      && (HeldDead(cl, y, x) ==> View(r, y, x).value.inc == OwnInc(cl, x))
  {
    hide Next, Inv, WellFormed, Handle, Digest;
    InvShaped(cl);
    InvHonest(cl, pkt);
    var c, n := cl.nodes[y].cfg, cl.nodes[y].st;
    var heard := Handle(c, n, pkt.msg);
    HearingRevives(c, n, pkt.msg);
    HandleNoResurrection(c, n, pkt.msg);
    HandleOutgoing(c, n, pkt.msg);
    ack := PingIsAcked(c, n, pkt.msg);
    DeliverySends(cl, pkt, ack);
    NextInv(cl, Deliver(pkt));
    NextState(cl, Deliver(pkt), y);
    OtherNodeKept(cl, pkt, x);
    NextUp(cl, Deliver(pkt), y);
    InvShaped(Next(cl, Deliver(pkt)));
    if HeldDead(cl, y, x) {
      ViewsBelowOwn(cl, y, x);
      ViewsBelowOwn(Next(cl, Deliver(pkt)), y, x);
    }
    FirstOfDigest(cl.nodes[x].cfg, cl.nodes[x].st);
  }

  lemma FirstOfDigest(c: Config, n: NodeState)
    requires WellFormed(c, n)
    ensures |Digest(c, n)| > 0 && Digest(c, n)[0] == Update(c.id, n.inc, Alive)
  {}

  lemma InvHonest(cl: Cluster, pkt: Packet)
    requires Inv(cl) && pkt in cl.net
    ensures Honest(pkt.msg)
  {}

  lemma ViewsBelowOwn(cl: Cluster, y: NodeId, x: NodeId)
    requires Inv(cl) && View(cl, y, x).Some?
    ensures View(cl, y, x).value.inc <= OwnInc(cl, x)
  {
    assert ViewBounded(cl, cl.nodes[y].st);
  }

  lemma OtherNodeKept(cl: Cluster, pkt: Packet, x: NodeId)
    requires Shaped(cl) && x in cl.nodes && pkt in cl.net && Up(cl, pkt.dest) && pkt.dest != x
    ensures x in Next(cl, Deliver(pkt)).nodes && Next(cl, Deliver(pkt)).nodes[x] == cl.nodes[x]
  {
    hide Handle, WellFormed;
  }

  lemma PingIsAcked(c: Config, n: NodeState, m: Message) returns (ack: Packet)
    requires WellFormed(c, n) && m.isPing && Usable(m.sender)
    ensures ack in Handle(c, n, m).1 && ack.dest == m.sender
  {
    hide Digest;
    MergeKeeps(c, n, m.gossip);
    MarkHeardKeeps(c, MergeAll(c, n, m.gossip), m.sender);
    var heard := MarkHeard(c, MergeAll(c, n, m.gossip), m.sender);
    ack := Packet(m.sender, Encode(c, heard, false));
    assert Handle(c, n, m).1 == [ack];
  }

  /** Delivering the ack leaves the pinging node holding the other ALIVE, and makes it refute where it is held
      DEAD at its own incarnation. */
  lemma DeliverAck(cl: Cluster, ack: Packet, x: NodeId, y: NodeId)
    requires Inv(cl) && Up(cl, x) && Up(cl, y) && x != y && Usable(x) && Usable(y) && Carries(cl, ack, y)
    requires ack.dest == x && View(cl, x, y).Some? && View(cl, x, y).value.state != Dead
    ensures var r := Next(cl, Deliver(ack));
      && Inv(r) && Up(r, x) && Up(r, y) && r.nodes[y] == cl.nodes[y] && r.nodes[x].cfg == cl.nodes[x].cfg
      && View(r, x, y).Some? && View(r, x, y).value.state == Alive
      && (HeldDead(cl, y, x) ==> OwnInc(r, x) == OwnInc(cl, x) + 1)
  {
    hide Next, Inv, WellFormed, Handle;
    InvShaped(cl);
    InvHonest(cl, ack);
    HearingRevives(cl.nodes[x].cfg, cl.nodes[x].st, ack.msg);
    NextInv(cl, Deliver(ack));
    NextState(cl, Deliver(ack), x);
    OtherNodeKept(cl, ack, y);
    NextUp(cl, Deliver(ack), x);
    OnlyOwnerRaises(cl, Deliver(ack), x);
    if HeldDead(cl, y, x) {
      ViewsBelowOwn(cl, y, x);
      DigestAccuses(cl.nodes[y].cfg, cl.nodes[y].st, cl.nodes[x].cfg, cl.nodes[x].st);
    }
  }

  lemma DigestAccuses(c: Config, n: NodeState, own: Config, st: NodeState)
    requires WellFormed(c, n) && own.id in n.members && own.id != c.id && Usable(own.id)
    requires n.members[own.id].state == Dead && n.members[own.id].inc == st.inc
    ensures AccusedNow(own, st, Digest(c, n))
  {
    WellListed(c, n);
    var i :| 0 <= i < |n.order| && n.order[i] == own.id;
    assert Digest(c, n)[i + 1].id == own.id;
  }

  ghost predicate BothAlive(cl: Cluster, x: NodeId, y: NodeId) {
    && View(cl, x, y).Some? && View(cl, x, y).value.state == Alive
    && View(cl, y, x).Some? && View(cl, y, x).value.state == Alive
  }

  /** A ping and its ack: the pinging node holds the other ALIVE, and the other holds it ALIVE or, if it held it
      DEAD, still does, at an incarnation that the pinging node has now left behind. */
  lemma PingAndAck(cl: Cluster, x: NodeId, y: NodeId) returns (steps: seq<Step>)
    requires Pinged(cl, x, y) && (View(cl, y, x).Some? || cl.nodes[y].cfg.mayLearn(x))
    ensures |steps| == 3 && Pinged(Run(Next, cl, steps), x, y) && View(Run(Next, cl, steps), y, x).Some?
    ensures !HeldDead(cl, y, x) ==> BothAlive(Run(Next, cl, steps), x, y)
    ensures !HeldDead(Run(Next, cl, steps), y, x)
  {
    hide Next, Inv, WellFormed, Digest;
    var ping := SendPing(cl, x, y);
    var r1 := Next(cl, ProbeAt(x));
    var ack := DeliverPing(r1, ping, x, y);
    var r2 := Next(r1, Deliver(ping));
    DeliverAck(r2, ack, x, y);
    steps := [ProbeAt(x), Deliver(ping), Deliver(ack)];
    RunThree(cl, steps[0], steps[1], steps[2]);
  }

  lemma RunThree(cl: Cluster, a: Step, b: Step, c: Step)
    ensures Run(Next, cl, [a, b, c]) == Next(Next(Next(cl, a), b), c)
  {
    hide Next;
    RunSnoc(Next, cl, [a, b], c);
    RunSnoc(Next, cl, [a], b);
    RunSnoc(Next, cl, [], a);
    assert [a, b] + [c] == [a, b, c] && [a] + [b] == [a, b] && [] + [a] == [a];
  }

  /** While one of two live nodes still holds the other as not DEAD, and the other knows it or may learn it, they
      are six steps from holding each other ALIVE: ping, ack and, if it was held DEAD, refutation and ping. */
  lemma OneSideReconciles(cl: Cluster, x: NodeId, y: NodeId) returns (steps: seq<Step>)
    requires Pinged(cl, x, y) && (View(cl, y, x).Some? || cl.nodes[y].cfg.mayLearn(x))
    ensures |steps| == 6 && BothAlive(Run(Next, cl, steps), x, y)
  {
    hide Next, Pinged, HeldDead, BothAlive;
    var first := PingAndAck(cl, x, y);
    var second := PingAndAck(Run(Next, cl, first), x, y);
    steps := first + second;
    RunAppend(Next, cl, first, second);
  }

  /** So between two live nodes that know each other, with nothing in flight and nobody else about, some run
      brings them back to hold each other ALIVE exactly when one of them still holds the other as not DEAD. */
  lemma {:induction false} ReconcilesIff(cl: Cluster, x: NodeId, y: NodeId)
    requires Inv(cl) && Up(cl, x) && Up(cl, y) && x != y && Usable(x) && Usable(y)
    requires cl.nodes.Keys == {x, y} && cl.net == multiset{}
    requires cl.nodes[x].st.members.Keys == {y} && cl.nodes[y].st.members.Keys == {x}
    ensures (exists steps :: BothAlive(Run(Next, cl, steps), x, y))
      <==> View(cl, x, y).value.state != Dead || View(cl, y, x).value.state != Dead
  {
    hide Next, BothAlive, Inv, Split;
    if View(cl, x, y).value.state != Dead {
      var steps := OneSideReconciles(cl, x, y);
    } else if View(cl, y, x).value.state != Dead {
      var steps := OneSideReconciles(cl, y, x);
      BothAliveSymmetric(Run(Next, cl, steps), x, y);
    } else {
      DeadPairIsSplit(cl, x, y);
      forall steps ensures !BothAlive(Run(Next, cl, steps), x, y) {
        SplitIsForever({x}, cl, steps);
        SplitIsNotAlive(Run(Next, cl, steps), x, y);
      }
    }
  }

  lemma BothAliveSymmetric(cl: Cluster, x: NodeId, y: NodeId)
    ensures BothAlive(cl, y, x) <==> BothAlive(cl, x, y)
  {}

  lemma DeadPairIsSplit(cl: Cluster, x: NodeId, y: NodeId)
    requires Inv(cl) && x != y && cl.nodes.Keys == {x, y} && cl.net == multiset{}
    requires cl.nodes[x].st.members.Keys == {y} && cl.nodes[y].st.members.Keys == {x}
    requires cl.nodes[x].st.members[y].state == Dead && cl.nodes[y].st.members[x].state == Dead
    ensures Split({x}, cl)
  {
    hide WellFormed;
    InvShaped(cl);
    assert ViewSplit({x}, x, cl.nodes[x].st) && ViewSplit({x}, y, cl.nodes[y].st);
    forall id | id in cl.nodes ensures ViewSplit({x}, id, cl.nodes[id].st) {
      assert id in {x, y};
    }
  }

  lemma SplitIsNotAlive(cl: Cluster, x: NodeId, y: NodeId)
    requires Split({x}, cl) && x != y
    ensures !BothAlive(cl, x, y)
  {
    hide WellFormed;
    if x in cl.nodes {
      assert ViewSplit({x}, x, cl.nodes[x].st);
    }
  }
}
