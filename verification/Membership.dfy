/** One node of the gossip membership protocol: what it knows about its peers, how it merges
    gossip, hears frames, ages peers and probes them. `SwimMembership` is the mutable node;
    the functions before it say what each of its operations does to the node's state. */
module Membership {
  import opened Common

  datatype NodeId = NodeId(name: string)

  datatype MemberState = Alive | Suspect | Dead

  datatype Update = Update(id: NodeId, inc: int, state: MemberState)

  datatype Member = Member(inc: int, state: MemberState, ticks: nat)

  datatype Message = Message(isPing: bool, sender: NodeId, seqNo: nat, gossip: seq<Update>)

  datatype Packet = Packet(dest: NodeId, msg: Message)

  datatype Config = Config(id: NodeId, suspectAfter: int, deadAfter: int, mayLearn: NodeId -> bool)

  /** `order` lists the keys of `members` in insertion order, as a Python dict does. */
  datatype NodeState = NodeState(members: map<NodeId, Member>, order: seq<NodeId>, inc: int, seqNo: nat)

  ghost predicate ValidConfig(c: Config) {
    c.id.name != "" && c.suspectAfter >= 1 && c.deadAfter >= 1
  }

  /** `order` lists each of `keys` exactly once. */
  ghost predicate Listing(order: seq<NodeId>, keys: set<NodeId>) {
    if order == [] then keys == {}
    else
      var last := order[|order| - 1];
      last in keys && Listing(order[..|order| - 1], keys - {last})
  }

  lemma {:induction false} ListingFacts(order: seq<NodeId>, keys: set<NodeId>)
    requires Listing(order, keys)
    ensures forall p :: p in order <==> p in keys
    ensures forall i, j :: 0 <= i < j < |order| ==> order[i] != order[j]
  {
    if order != [] {
      var init, last := order[..|order| - 1], order[|order| - 1];
      ListingFacts(init, keys - {last});
      assert order == init + [last];
      forall i, j | 0 <= i < j < |order| ensures order[i] != order[j] {
        assert order[i] == init[i] && init[i] in init;
      }
    }
  }

  lemma ListingSnoc(order: seq<NodeId>, keys: set<NodeId>, p: NodeId)
    requires Listing(order, keys) && p !in keys
    ensures Listing(order + [p], keys + {p})
  {
    assert (order + [p])[..|order|] == order;
    assert keys + {p} - {p} == keys;
  }

  /** Holds of every node in every run: a node is not its own peer, and an ALIVE peer has been
      silent for fewer than `suspectAfter` ticks. */
  ghost predicate WellFormed(c: Config, n: NodeState) {
    && ValidConfig(c)
    && Listing(n.order, n.members.Keys)
    && c.id !in n.members
    && forall p :: p in n.members && n.members[p].state == Alive ==> n.members[p].ticks < c.suspectAfter
  }

  lemma WellListed(c: Config, n: NodeState)
    requires WellFormed(c, n)
    ensures forall p :: p in n.order <==> p in n.members
    ensures forall i, j :: 0 <= i < j < |n.order| ==> n.order[i] != n.order[j]
  {
    ListingFacts(n.order, n.members.Keys);
  }

  // ----- the precedence order -----

  function Rank(s: MemberState): int {
    match s
    case Alive => 0
    case Suspect => 1
    case Dead => 2
  }

  predicate LexLess(a: (int, int), b: (int, int)) {
    a.0 < b.0 || (a.0 == b.0 && a.1 < b.1)
  }

  predicate LexLe(a: (int, int), b: (int, int)) {
    a == b || LexLess(a, b)
  }

  function Key(inc: int, s: MemberState): (int, int) {
    (inc, Rank(s))
  }

  /** The three-branch merge rule is exactly the strict lexicographic order on
      (incarnation, ALIVE < SUSPECT < DEAD). */
  predicate Supersedes(inState: MemberState, inInc: int, curState: MemberState, curInc: int)
    ensures Supersedes(inState, inInc, curState, curInc) <==> LexLess(Key(curInc, curState), Key(inInc, inState))
  {
    match inState
    case Alive => inInc > curInc
    case Suspect => inInc > curInc || (inInc == curInc && curState == Alive)
    case Dead => inInc > curInc || (inInc == curInc && curState != Dead)
  }

  // ----- what each operation does to the node's state -----

  predicate Usable(id: NodeId) {
    id.name != "" && |id.name| <= MAX_NODE_ID_LEN
  }

  function Insert(n: NodeState, p: NodeId, m: Member): NodeState {
    n.(members := n.members[p := m], order := if p in n.members then n.order else n.order + [p])
  }

  lemma InsertKeeps(c: Config, n: NodeState, p: NodeId, m: Member)
    requires WellFormed(c, n) && p != c.id && (m.state == Alive ==> m.ticks < c.suspectAfter)
    ensures WellFormed(c, Insert(n, p, m))
  {
    hide Listing;
    if p in n.members {
      assert n.members[p := m].Keys == n.members.Keys;
    } else {
      assert n.members[p := m].Keys == n.members.Keys + {p};
      ListingSnoc(n.order, n.members.Keys, p);
    }
  }

  function MergeOne(c: Config, n: NodeState, u: Update): NodeState {
    if !Usable(u.id) then n
    else if u.id == c.id then
      if u.state != Alive && u.inc >= n.inc then n.(inc := u.inc + 1) else n
    else if u.id !in n.members then
      if c.mayLearn(u.id) then Insert(n, u.id, Member(u.inc, u.state, 0)) else n
    else
      var cur := n.members[u.id];
      if Supersedes(u.state, u.inc, cur.state, cur.inc)
      then Insert(n, u.id, Member(u.inc, u.state, if u.state == Alive then 0 else cur.ticks))
      else n
  }

  function MergeAll(c: Config, n: NodeState, us: seq<Update>): NodeState {
    if us == [] then n else MergeOne(c, MergeAll(c, n, us[..|us| - 1]), us[|us| - 1])
  }

  lemma MergeOneKeeps(c: Config, n: NodeState, u: Update)
    requires WellFormed(c, n)
    ensures WellFormed(c, MergeOne(c, n, u))
  {
    if u.id != c.id {
      if u.id !in n.members {
        InsertKeeps(c, n, u.id, Member(u.inc, u.state, 0));
      } else {
        InsertKeeps(c, n, u.id, Member(u.inc, u.state, if u.state == Alive then 0 else n.members[u.id].ticks));
      }
    }
  }

  lemma {:induction false} MergeKeeps(c: Config, n: NodeState, us: seq<Update>)
    requires WellFormed(c, n)
    ensures WellFormed(c, MergeAll(c, n, us))
  {
    if us != [] {
      MergeKeeps(c, n, us[..|us| - 1]);
      MergeOneKeeps(c, MergeAll(c, n, us[..|us| - 1]), us[|us| - 1]);
    }
  }

  function MarkHeard(c: Config, n: NodeState, sender: NodeId): NodeState {
    if sender.name == "" || sender == c.id then n
    else if sender !in n.members then
      if c.mayLearn(sender) then Insert(n, sender, Member(0, Alive, 0)) else n
    else if n.members[sender].state != Dead then
      Insert(n, sender, n.members[sender].(state := Alive, ticks := 0))
    else n
  }

  lemma MarkHeardKeeps(c: Config, n: NodeState, sender: NodeId)
    requires WellFormed(c, n)
    ensures WellFormed(c, MarkHeard(c, n, sender))
  {
    if sender != c.id {
      if sender !in n.members {
        InsertKeeps(c, n, sender, Member(0, Alive, 0));
      } else {
        InsertKeeps(c, n, sender, n.members[sender].(state := Alive, ticks := 0));
      }
    }
  }

  /** The node itself, always ALIVE at its own incarnation, then every known peer. */
  function Digest(c: Config, n: NodeState): (us: seq<Update>)
    requires WellFormed(c, n)
    ensures |us| == 1 + |n.order|
    ensures forall i :: 0 <= i < |n.order| ==> n.order[i] in n.members
    ensures us[0] == Update(c.id, n.inc, Alive)
    ensures forall i :: 1 <= i < |us| ==>
      us[i].id == n.order[i - 1] && us[i].id in n.members
      && us[i] == Update(us[i].id, n.members[us[i].id].inc, n.members[us[i].id].state)
  {
    ListingFacts(n.order, n.members.Keys);
    assert forall i :: 0 <= i < |n.order| ==> n.order[i] in n.order;
    [Update(c.id, n.inc, Alive)] +
    seq(|n.order|, i requires 0 <= i < |n.order| && n.order[i] in n.members =>
      Update(n.order[i], n.members[n.order[i]].inc, n.members[n.order[i]].state))
  }

  function Encode(c: Config, n: NodeState, isPing: bool): Message
    requires WellFormed(c, n)
  {
    Message(isPing, c.id, n.seqNo + 1, Digest(c, n))
  }

  /** One drained frame: merge its gossip, mark its sender heard, answer a ping. */
  function Handle(c: Config, n: NodeState, m: Message): (r: (NodeState, seq<Packet>))
    requires WellFormed(c, n)
    ensures WellFormed(c, r.0)
  {
    MergeKeeps(c, n, m.gossip);
    var merged := MergeAll(c, n, m.gossip);
    if !Usable(m.sender) then (merged, [])
    else
      MarkHeardKeeps(c, merged, m.sender);
      var heard := MarkHeard(c, merged, m.sender);
      if m.isPing
      then (heard.(seqNo := heard.seqNo + 1), [Packet(m.sender, Encode(c, heard, false))])
      else (heard, [])
  }

  function HandleAll(c: Config, n: NodeState, inbox: seq<Message>): (r: (NodeState, seq<Packet>))
    requires WellFormed(c, n)
    ensures WellFormed(c, r.0)
  {
    if inbox == [] then (n, [])
    else
      var before := HandleAll(c, n, inbox[..|inbox| - 1]);
      var last := Handle(c, before.0, inbox[|inbox| - 1]);
      (last.0, before.1 + last.1)
  }

  function AgeMember(c: Config, m: Member): Member {
    if m.state == Dead then m
    else
      var t := m.ticks + 1;
      if m.state == Alive && t >= c.suspectAfter then Member(m.inc, Suspect, t)
      else if m.state == Suspect && t >= c.suspectAfter + c.deadAfter then Member(m.inc, Dead, t)
      else Member(m.inc, m.state, t)
  }

  function Age(c: Config, n: NodeState): NodeState {
    n.(members := map p | p in n.members :: AgeMember(c, n.members[p]))
  }

  /** `members` is `n`'s table with the first `i` peers in its order aged. */
  ghost predicate AgedUpTo(c: Config, n: NodeState, members: map<NodeId, Member>, i: nat) {
    && members.Keys == n.members.Keys && i <= |n.order|
    && (forall j :: 0 <= j < i ==> n.order[j] in members && members[n.order[j]] == AgeMember(c, n.members[n.order[j]]))
    && (forall j :: i <= j < |n.order| ==> n.order[j] in members && members[n.order[j]] == n.members[n.order[j]])
  }

  lemma NoneAged(c: Config, n: NodeState)
    requires WellFormed(c, n)
    ensures AgedUpTo(c, n, n.members, 0)
  {
    WellListed(c, n);
    forall j | 0 <= j < |n.order| ensures n.order[j] in n.members {
      assert n.order[j] in n.order;
    }
  }

  lemma AgedOneMore(c: Config, n: NodeState, members: map<NodeId, Member>, i: nat)
    requires WellFormed(c, n) && i < |n.order| && AgedUpTo(c, n, members, i)
    ensures n.order[i] in members
    ensures members[n.order[i]].state == Dead ==> AgedUpTo(c, n, members, i + 1)
    ensures AgedUpTo(c, n, members[n.order[i] := AgeMember(c, members[n.order[i]])], i + 1)
  {
    hide WellFormed;
    WellListed(c, n);
    var p := n.order[i];
    assert members[p := AgeMember(c, members[p])].Keys == members.Keys;
  }

  lemma AgedAll(c: Config, n: NodeState, members: map<NodeId, Member>)
    requires WellFormed(c, n) && AgedUpTo(c, n, members, |n.order|)
    ensures Age(c, n) == n.(members := members)
  {
    WellListed(c, n);
    forall p | p in members ensures members[p] == AgeMember(c, n.members[p]) {
      assert p in n.order;
    }
  }

  lemma AgeKeeps(c: Config, n: NodeState)
    requires WellFormed(c, n)
    ensures WellFormed(c, Age(c, n))
  {
    assert Age(c, n).members.Keys == n.members.Keys;
  }

  /** One ping to each of the first `k` listed peers that is not DEAD. */
  function ProbePrefix(c: Config, n: NodeState, k: nat): (r: (NodeState, seq<Packet>))
    requires WellFormed(c, n)
    requires k <= |n.order|
    ensures r.0 == n.(seqNo := r.0.seqNo)
    ensures WellFormed(c, r.0)
  {
    if k == 0 then (n, [])
    else
      var before := ProbePrefix(c, n, k - 1);
      ListingFacts(n.order, n.members.Keys);
      assert n.order[k - 1] in n.order;
      if n.members[n.order[k - 1]].state != Dead
      then (before.0.(seqNo := before.0.seqNo + 1),
            before.1 + [Packet(n.order[k - 1], Encode(c, before.0, true))])
      else before
  }

  lemma NoneProbed(c: Config, n: NodeState)
    requires WellFormed(c, n)
    ensures ProbePrefix(c, n, 0) == (n, [])
  {}

  lemma ProbedOneMore(c: Config, n: NodeState, i: nat)
    requires WellFormed(c, n) && i < |n.order|
    ensures n.order[i] in n.members
    ensures var (before, sent) := ProbePrefix(c, n, i);
      var ping := (before.(seqNo := before.seqNo + 1), sent + [Packet(n.order[i], Encode(c, before, true))]);
      ProbePrefix(c, n, i + 1) == if n.members[n.order[i]].state != Dead then ping else (before, sent)
  {
    hide WellFormed, Encode;
    WellListed(c, n);
    assert n.order[i] in n.order;
  }

  function Probe(c: Config, n: NodeState): (r: (NodeState, seq<Packet>))
    requires WellFormed(c, n)
    ensures WellFormed(c, r.0)
  {
    ProbePrefix(c, n, |n.order|)
  }

  /** A whole tick: drain, age, probe. */
  function Tick(c: Config, n: NodeState, inbox: seq<Message>): (r: (NodeState, seq<Packet>))
    requires WellFormed(c, n)
    ensures WellFormed(c, r.0)
  {
    var h := HandleAll(c, n, inbox);
    AgeKeeps(c, h.0);
    var p := Probe(c, Age(c, h.0));
    (p.0, h.1 + p.1)
  }

  /** A fresh node's table: every seed but itself, ALIVE at incarnation 0. */
  function InitialPrefix(c: Config, seeds: seq<NodeId>): NodeState {
    if seeds == [] then NodeState(map[], [], 0, 0)
    else
      var n := InitialPrefix(c, seeds[..|seeds| - 1]);
      var s := seeds[|seeds| - 1];
      if s.name != "" && s != c.id then Insert(n, s, Member(0, Alive, 0)) else n
  }

  lemma {:induction false} InitialFacts(c: Config, seeds: seq<NodeId>)
    requires ValidConfig(c)
    ensures WellFormed(c, InitialPrefix(c, seeds)) && InitialPrefix(c, seeds).inc == 0
    ensures var members := InitialPrefix(c, seeds).members;
      forall p :: p in members ==> members[p] == Member(0, Alive, 0)
  {
    hide WellFormed;
    if seeds == [] {
      EmptyWellFormed(c);
    } else {
      InitialFacts(c, seeds[..|seeds| - 1]);
      if seeds[|seeds| - 1] != c.id {
        InsertKeeps(c, InitialPrefix(c, seeds[..|seeds| - 1]), seeds[|seeds| - 1], Member(0, Alive, 0));
      }
    }
  }

  lemma EmptyWellFormed(c: Config)
    requires ValidConfig(c)
    ensures WellFormed(c, NodeState(map[], [], 0, 0))
  {
    var none: map<NodeId, Member> := map[];
    assert none.Keys == {};
  }

  lemma {:induction false} InitialMembers(c: Config, seeds: seq<NodeId>, p: NodeId)
    ensures p in InitialPrefix(c, seeds).members <==> p in seeds && p.name != "" && p != c.id
  {
    if seeds != [] {
      InitialMembers(c, seeds[..|seeds| - 1], p);
      assert p in seeds <==> p in seeds[..|seeds| - 1] || p == seeds[|seeds| - 1];
    }
  }

  // ----- the mutable node -----

  class SwimMembership {
    const cfg: Config
    var members: map<NodeId, Member>
    var order: seq<NodeId>
    var incarnation: int
    var seqNo: nat

    ghost function State(): NodeState
      reads this
    {
      NodeState(members, order, incarnation, seqNo)
    }

    ghost predicate Valid()
      reads this
    {
      WellFormed(cfg, State())
    }

    constructor (cfg: Config, seeds: seq<NodeId>)
      requires ValidConfig(cfg)
      ensures Valid() && this.cfg == cfg
      ensures State() == InitialPrefix(cfg, seeds)
    {
      this.cfg := cfg;
      members, order, incarnation, seqNo := map[], [], 0, 0;
      new;
      for i := 0 to |seeds|
        invariant this.cfg == cfg
        invariant State() == InitialPrefix(cfg, seeds[..i])
      {
        assert seeds[..i + 1][..i] == seeds[..i];
        if seeds[i].name != "" && seeds[i] != cfg.id {
          SetMember(seeds[i], Member(0, Alive, 0));
        }
      }
      assert seeds[..|seeds|] == seeds;
      InitialFacts(cfg, seeds);
    }

    method SetMember(p: NodeId, m: Member)
      modifies this`members, this`order
      ensures State() == Insert(old(State()), p, m)
    {
      if p !in members {
        order := order + [p];
      }
      members := members[p := m];
    }

    method Merge(updates: seq<Update>)
      requires Valid()
      modifies this
      ensures Valid()
      ensures State() == MergeAll(cfg, old(State()), updates)
    {
      MergeKeeps(cfg, State(), updates);
      for i := 0 to |updates|
        invariant State() == MergeAll(cfg, old(State()), updates[..i])
      {
        assert updates[..i + 1][..i] == updates[..i];
        var u := updates[i];
        if !Usable(u.id) {
          continue;
        }
        if u.id == cfg.id {
          if u.state != Alive && u.inc >= incarnation {
            incarnation := u.inc + 1;
          }
          continue;
        }
        if u.id !in members {
          if !cfg.mayLearn(u.id) {
            continue;
          }
          SetMember(u.id, Member(u.inc, u.state, 0));
          continue;
        }
        var cur := members[u.id];
        if Supersedes(u.state, u.inc, cur.state, cur.inc) {
          cur := cur.(inc := u.inc, state := u.state);
          if u.state == Alive {
            cur := cur.(ticks := 0);
          }
          SetMember(u.id, cur);
        }
      }
      assert updates[..|updates|] == updates;
    }

    method Heard(sender: NodeId)
      requires Valid()
      modifies this
      ensures Valid()
      ensures State() == MarkHeard(cfg, old(State()), sender)
    {
      MarkHeardKeeps(cfg, State(), sender);
      if sender.name == "" || sender == cfg.id {
        return;
      }
      if sender !in members {
        if !cfg.mayLearn(sender) {
          return;
        }
        SetMember(sender, Member(0, Alive, 0));
      } else if members[sender].state != Dead {
        SetMember(sender, members[sender].(state := Alive, ticks := 0));
      }
    }

    method CurrentDigest() returns (updates: seq<Update>)
      requires Valid()
      ensures updates == Digest(cfg, State())
    {
      hide WellFormed, Listing;
      WellListed(cfg, State());
      updates := [Update(cfg.id, incarnation, Alive)];
      for i := 0 to |order|
        invariant updates == Digest(cfg, State())[..i + 1]
      {
        assert order[i] in order;
        var m := members[order[i]];
        updates := updates + [Update(order[i], m.inc, m.state)];
      }
    }

    method NextMessage(isPing: bool) returns (m: Message)
      requires Valid()
      modifies this`seqNo
      ensures Valid()
      ensures m == Encode(cfg, old(State()), isPing)
      ensures State() == old(State()).(seqNo := old(seqNo) + 1)
    {
      var gossip := CurrentDigest();
      seqNo := seqNo + 1;
      m := Message(isPing, cfg.id, seqNo, gossip);
    }

    method Receive(inbox: seq<Message>) returns (sent: seq<Packet>)
      requires Valid()
      modifies this
      ensures Valid()
      ensures (State(), sent) == HandleAll(cfg, old(State()), inbox)
    {
      hide WellFormed, Encode, MergeAll, MarkHeard;
      sent := [];
      for i := 0 to |inbox|
        invariant Valid()
        invariant (State(), sent) == HandleAll(cfg, old(State()), inbox[..i])
      {
        assert inbox[..i + 1][..i] == inbox[..i];
        var m := inbox[i];
        ghost var before := sent;
        ghost var step := Handle(cfg, State(), m);
        Merge(m.gossip);
        if !Usable(m.sender) {
          assert sent == before + step.1;
          continue;
        }
        Heard(m.sender);
        if m.isPing {
          var ack := NextMessage(false);
          sent := sent + [Packet(m.sender, ack)];
        }
        assert sent == before + step.1;
      }
      assert inbox[..|inbox|] == inbox;
    }

    method AgePeers()
      requires Valid()
      modifies this`members
      ensures Valid()
      ensures State() == Age(cfg, old(State()))
    {
      hide WellFormed, Listing, Age, AgedUpTo;
      AgeKeeps(cfg, State());
      ghost var was := State();
      NoneAged(cfg, was);
      for i := 0 to |order|
        invariant AgedUpTo(cfg, was, members, i)
      {
        AgedOneMore(cfg, was, members, i);
        var p := order[i];
        var m := members[p];
        if m.state == Dead {
          continue;
        }
        m := m.(ticks := m.ticks + 1);
        if m.state == Alive && m.ticks >= cfg.suspectAfter {
          m := m.(state := Suspect);
        } else if m.state == Suspect && m.ticks >= cfg.suspectAfter + cfg.deadAfter {
          m := m.(state := Dead);
        }
        members := members[p := m];
      }
      AgedAll(cfg, was, members);
    }

    method ProbePeers() returns (sent: seq<Packet>)
      requires Valid()
      modifies this`seqNo
      ensures Valid()
      ensures (State(), sent) == Probe(cfg, old(State()))
    {
      hide WellFormed, Listing, Encode, Digest, ProbePrefix;
      sent := [];
      NoneProbed(cfg, State());
      for i := 0 to |order|
        invariant Valid()
        invariant (State(), sent) == ProbePrefix(cfg, old(State()), i)
      {
        ProbedOneMore(cfg, old(State()), i);
        if members[order[i]].state != Dead {
          var ping := NextMessage(true);
          sent := sent + [Packet(order[i], ping)];
        }
      }
    }

    /** Contacting the seeds sends exactly what a probe round sends. */
    method Join() returns (sent: seq<Packet>)
      requires Valid()
      modifies this`seqNo
      ensures Valid()
      ensures (State(), sent) == Probe(cfg, old(State()))
    {
      sent := ProbePeers();
    }

    method RunTick(inbox: seq<Message>) returns (sent: seq<Packet>)
      requires Valid()
      modifies this
      ensures Valid()
      ensures (State(), sent) == Tick(cfg, old(State()), inbox)
    {
      var acks := Receive(inbox);
      AgePeers();
      var pings := ProbePeers();
      sent := acks + pings;
    }
  }

  // ----- gossip merge is a join -----

  /** What `us` says about peer `p`, in so far as the merge reads it at all. */
  ghost predicate Says(c: Config, us: seq<Update>, p: NodeId, k: (int, int)) {
    exists i :: 0 <= i < |us| && us[i].id == p && Usable(p) && p != c.id && Key(us[i].inc, us[i].state) == k
  }

  ghost predicate Mentions(c: Config, us: seq<Update>, p: NodeId) {
    exists i :: 0 <= i < |us| && us[i].id == p && Usable(p) && p != c.id
  }

  /** A self entry that must be refuted by reaching incarnation `k`. */
  ghost predicate Accuses(c: Config, us: seq<Update>, k: int) {
    exists i :: 0 <= i < |us| && us[i].id == c.id && Usable(c.id) && us[i].state != Alive && us[i].inc + 1 == k
  }

  function KeyOf(m: Member): (int, int) {
    Key(m.inc, m.state)
  }

  /** At peer `p`, `r` is the least state above `n` and everything `us` says. */
  ghost predicate IsJoinAt(c: Config, n: NodeState, us: seq<Update>, r: NodeState, p: NodeId) {
    && (p in r.members <==> p in n.members || (Mentions(c, us, p) && c.mayLearn(p)))
    && (p in n.members ==> LexLe(KeyOf(n.members[p]), KeyOf(r.members[p])))
    && (p in r.members ==> forall k :: Says(c, us, p, k) ==> LexLe(k, KeyOf(r.members[p])))
    && (p in r.members ==>
          (p in n.members && KeyOf(n.members[p]) == KeyOf(r.members[p])) || Says(c, us, p, KeyOf(r.members[p])))
  }

  /** The own incarnation is the least one that refutes every self entry. */
  ghost predicate IsJoinOwn(c: Config, n: NodeState, us: seq<Update>, r: NodeState) {
    && n.inc <= r.inc
    && (forall k :: Accuses(c, us, k) ==> k <= r.inc)
    && (n.inc == r.inc || Accuses(c, us, r.inc))
  }

  ghost predicate IsJoin(c: Config, n: NodeState, us: seq<Update>, r: NodeState) {
    IsJoinOwn(c, n, us, r) && forall p :: IsJoinAt(c, n, us, r, p)
  }

  lemma SaysSnoc(c: Config, us: seq<Update>, u: Update)
    ensures forall p, k :: Says(c, us + [u], p, k) <==>
      Says(c, us, p, k) || (u.id == p && Usable(p) && p != c.id && Key(u.inc, u.state) == k)
    ensures forall p :: Mentions(c, us + [u], p) <==> Mentions(c, us, p) || (u.id == p && Usable(p) && p != c.id)
    ensures forall k :: Accuses(c, us + [u], k) <==>
      Accuses(c, us, k) || (u.id == c.id && Usable(c.id) && u.state != Alive && u.inc + 1 == k)
  {
    var all := us + [u];
    assert all[|us|] == u;
    assert forall i :: 0 <= i < |us| ==> all[i] == us[i];
    forall p, k | Says(c, us, p, k) ensures Says(c, all, p, k) {
      var i :| 0 <= i < |us| && us[i].id == p && Usable(p) && p != c.id && Key(us[i].inc, us[i].state) == k;
      assert all[i] == us[i];
    }
    forall p | Mentions(c, us, p) ensures Mentions(c, all, p) {
      var i :| 0 <= i < |us| && us[i].id == p && Usable(p) && p != c.id;
      assert all[i] == us[i];
    }
    forall k | Accuses(c, us, k) ensures Accuses(c, all, k) {
      var i :| 0 <= i < |us| && us[i].id == c.id && Usable(c.id) && us[i].state != Alive && us[i].inc + 1 == k;
      assert all[i] == us[i];
    }
  }

  lemma MergeOneJoinAt(c: Config, n: NodeState, us: seq<Update>, a: NodeState, u: Update, p: NodeId)
    requires c.id !in a.members
    requires IsJoinAt(c, n, us, a, p)
    ensures IsJoinAt(c, n, us + [u], MergeOne(c, a, u), p)
  {
    SaysSnoc(c, us, u);
    if p in a.members && u.id == p && Usable(p) {
      assert Says(c, us + [u], p, Key(u.inc, u.state));
    }
  }

  lemma {:induction false} MergeIsJoin(c: Config, n: NodeState, us: seq<Update>)
    requires c.id !in n.members
    ensures IsJoin(c, n, us, MergeAll(c, n, us))
    ensures c.id !in MergeAll(c, n, us).members
  {
    if us != [] {
      var init, u := us[..|us| - 1], us[|us| - 1];
      MergeIsJoin(c, n, init);
      assert us == init + [u];
      SaysSnoc(c, init, u);
      forall p ensures IsJoinAt(c, n, us, MergeAll(c, n, us), p) {
        MergeOneJoinAt(c, n, init, MergeAll(c, n, init), u, p);
      }
    }
  }

  /** Same peers at the same (incarnation, state), and the same own incarnation. */
  ghost predicate SameRanks(a: NodeState, b: NodeState) {
    && a.members.Keys == b.members.Keys
    && (forall p :: p in a.members ==> a.members[p].inc == b.members[p].inc && a.members[p].state == b.members[p].state)
    && a.inc == b.inc
  }

  lemma JoinIsUniqueAt(c: Config, n: NodeState, us: seq<Update>, vs: seq<Update>, a: NodeState, b: NodeState, p: NodeId)
    requires forall u :: u in us <==> u in vs
    requires IsJoinAt(c, n, us, a, p) && IsJoinAt(c, n, vs, b, p)
    ensures p in a.members <==> p in b.members
    ensures p in a.members ==> a.members[p].inc == b.members[p].inc && a.members[p].state == b.members[p].state
  {
    SameContent(c, us, vs);
    SameContent(c, vs, us);
    if p in a.members {
      assert LexLe(KeyOf(a.members[p]), KeyOf(b.members[p]));
      assert LexLe(KeyOf(b.members[p]), KeyOf(a.members[p]));
    }
  }

  lemma JoinIsUnique(c: Config, n: NodeState, us: seq<Update>, vs: seq<Update>, a: NodeState, b: NodeState)
    requires forall u :: u in us <==> u in vs
    requires IsJoin(c, n, us, a) && IsJoin(c, n, vs, b)
    ensures SameRanks(a, b)
  {
    SameContent(c, us, vs);
    SameContent(c, vs, us);
    forall p
      ensures p in a.members <==> p in b.members
      ensures p in a.members ==> a.members[p].inc == b.members[p].inc && a.members[p].state == b.members[p].state
    {
      assert IsJoinAt(c, n, us, a, p) && IsJoinAt(c, n, vs, b, p);
      JoinIsUniqueAt(c, n, us, vs, a, b, p);
    }
    assert a.members.Keys == b.members.Keys;
  }

  lemma SameContent(c: Config, us: seq<Update>, vs: seq<Update>)
    requires forall u :: u in us ==> u in vs
    ensures forall p, k :: Says(c, us, p, k) ==> Says(c, vs, p, k)
    ensures forall p :: Mentions(c, us, p) ==> Mentions(c, vs, p)
    ensures forall k :: Accuses(c, us, k) ==> Accuses(c, vs, k)
  {
    forall p, k | Says(c, us, p, k) ensures Says(c, vs, p, k) {
      var i :| 0 <= i < |us| && us[i].id == p && Usable(p) && p != c.id && Key(us[i].inc, us[i].state) == k;
      assert us[i] in vs;
    }
    forall p | Mentions(c, us, p) ensures Mentions(c, vs, p) {
      var i :| 0 <= i < |us| && us[i].id == p && Usable(p) && p != c.id;
      assert us[i] in vs;
    }
    forall k | Accuses(c, us, k) ensures Accuses(c, vs, k) {
      var i :| 0 <= i < |us| && us[i].id == c.id && Usable(c.id) && us[i].state != Alive && us[i].inc + 1 == k;
      assert us[i] in vs;
    }
  }

  /** Order and repetition of gossip do not matter. */
  lemma MergeOrderIrrelevant(c: Config, n: NodeState, us: seq<Update>, vs: seq<Update>)
    requires c.id !in n.members
    requires forall u :: u in us <==> u in vs
    ensures SameRanks(MergeAll(c, n, us), MergeAll(c, n, vs))
  {
    MergeIsJoin(c, n, us);
    MergeIsJoin(c, n, vs);
    JoinIsUnique(c, n, us, vs, MergeAll(c, n, us), MergeAll(c, n, vs));
  }

  /** Batching does not matter: two digests merge as their concatenation does. */
  lemma {:induction false} MergeBatches(c: Config, n: NodeState, us: seq<Update>, vs: seq<Update>)
    ensures MergeAll(c, n, us + vs) == MergeAll(c, MergeAll(c, n, us), vs)
  {
    if vs == [] {
      assert us + vs == us;
    } else {
      MergeBatches(c, n, us, vs[..|vs| - 1]);
      assert (us + vs)[..|us + vs| - 1] == us + vs[..|vs| - 1];
    }
  }

  // ----- when a merge resets the silence counter -----

  /** The i-th update reports `p` ALIVE above the held incarnation and above every earlier report of it. */
  ghost predicate Refreshes(n: NodeState, us: seq<Update>, p: NodeId, i: nat)
    requires p in n.members && i < |us|
  {
    && us[i].id == p && us[i].state == Alive && us[i].inc > n.members[p].inc
    && forall j :: 0 <= j < i && us[j].id == p ==> LexLess(Key(us[j].inc, us[j].state), Key(us[i].inc, us[i].state))
  }

  ghost predicate Refreshed(n: NodeState, us: seq<Update>, p: NodeId)
    requires p in n.members
  {
    Usable(p) && exists i :: 0 <= i < |us| && Refreshes(n, us, p, i)
  }

  lemma RefreshedSnoc(n: NodeState, us: seq<Update>, u: Update, p: NodeId)
    requires p in n.members
    ensures Refreshed(n, us + [u], p) <==> Refreshed(n, us, p) || (Usable(p) && Refreshes(n, us + [u], p, |us|))
  {
    var all := us + [u];
    forall i | 0 <= i < |us| ensures Refreshes(n, all, p, i) <==> Refreshes(n, us, p, i) {
      assert all[i] == us[i] && forall j :: 0 <= j < i ==> all[j] == us[j];
    }
  }

  /** The last update resets the counter exactly when it refreshes: what is held by then is the join. */
  lemma LastRefreshes(c: Config, n: NodeState, init: seq<Update>, u: Update, p: NodeId, a: NodeState)
    requires p in n.members && p in a.members && Usable(p) && p != c.id
    requires IsJoinAt(c, n, init, a, p) && u.id == p && u.state == Alive
    ensures Refreshes(n, init + [u], p, |init|) <==> LexLess(KeyOf(a.members[p]), Key(u.inc, u.state))
  {
    var all := init + [u];
    forall j | 0 <= j < |init| && init[j].id == p ensures LexLe(Key(init[j].inc, init[j].state), KeyOf(a.members[p])) {
      assert Says(c, init, p, Key(init[j].inc, init[j].state));
    }
    if Refreshes(n, all, p, |init|) && Says(c, init, p, KeyOf(a.members[p])) {
      var j :| 0 <= j < |init| && init[j].id == p && Key(init[j].inc, init[j].state) == KeyOf(a.members[p]);
      assert all[j] == init[j];
    }
  }

  /** For a peer that is held, any merge leaves the silence counter at 0 when some ALIVE report of it is above
      the held incarnation and above every earlier report, and otherwise as it was. */
  lemma {:induction false} MergeTicks(c: Config, n: NodeState, us: seq<Update>, p: NodeId)
    requires c.id !in n.members && p in n.members
    ensures p in MergeAll(c, n, us).members
    ensures MergeAll(c, n, us).members[p].ticks == if Refreshed(n, us, p) then 0 else n.members[p].ticks
  {
    hide IsJoinAt, Refreshes;
    if us != [] {
      var init, u := us[..|us| - 1], us[|us| - 1];
      MergeTicks(c, n, init, p);
      MergeIsJoin(c, n, init);
      assert us == init + [u];
      RefreshedSnoc(n, init, u, p);
      if u.id == p && Usable(p) && u.state == Alive {
        assert IsJoinAt(c, n, init, MergeAll(c, n, init), p);
        LastRefreshes(c, n, init, u, p, MergeAll(c, n, init));
      } else {
        NoAliveNoRefresh(n, us, p);
      }
    }
  }

  lemma NoAliveNoRefresh(n: NodeState, us: seq<Update>, p: NodeId)
    requires p in n.members && us != []
    ensures us[|us| - 1].id != p || us[|us| - 1].state != Alive ==> !Refreshes(n, us, p, |us| - 1)
  {}

  ghost predicate Permuted(us: seq<Update>, vs: seq<Update>) {
    multiset(us) == multiset(vs)
  }

  ghost predicate AliveAbove(n: NodeState, us: seq<Update>, p: NodeId, i: nat)
    requires p in n.members && i < |us|
  {
    us[i].id == p && us[i].state == Alive && us[i].inc > n.members[p].inc
  }

  /** The j-th update reports `p` as not ALIVE at the greatest incarnation reported for it. */
  ghost predicate TopAccusation(us: seq<Update>, p: NodeId, j: nat)
    requires j < |us|
  {
    us[j].id == p && us[j].state != Alive && forall k :: 0 <= k < |us| && us[k].id == p ==> us[k].inc <= us[j].inc
  }

  /** Some ALIVE report of `p` is above the held incarnation, and the greatest one reported is not only ALIVE. */
  ghost predicate OrderDecides(n: NodeState, us: seq<Update>, p: NodeId)
    requires p in n.members
  {
    && (exists i :: 0 <= i < |us| && AliveAbove(n, us, p, i))
    && (exists j :: 0 <= j < |us| && TopAccusation(us, p, j))
  }

  function ToFront(us: seq<Update>, i: nat): seq<Update>
    requires i < |us|
  {
    [us[i]] + us[..i] + us[i + 1..]
  }

  lemma ToFrontPermutes(us: seq<Update>, i: nat)
    requires i < |us|
    ensures Permuted(us, ToFront(us, i))
    ensures forall u :: u in ToFront(us, i) <==> u in us
  {
    assert us == us[..i] + [us[i]] + us[i + 1..];
  }

  lemma AliveFirstRefreshes(n: NodeState, us: seq<Update>, p: NodeId, i: nat)
    requires p in n.members && Usable(p) && i < |us| && AliveAbove(n, us, p, i)
    ensures Refreshed(n, ToFront(us, i), p)
  {
    assert Refreshes(n, ToFront(us, i), p, 0);
  }

  lemma AccusationFirstPrevents(n: NodeState, us: seq<Update>, p: NodeId, j: nat)
    requires p in n.members && j < |us| && TopAccusation(us, p, j)
    ensures !Refreshed(n, ToFront(us, j), p)
  {
    var vs := ToFront(us, j);
    ToFrontPermutes(us, j);
    forall i | 0 <= i < |vs| ensures !Refreshes(n, vs, p, i) {
      assert vs[i] in us && vs[0] == us[j];
    }
  }

  lemma {:induction false} GreatestReport(us: seq<Update>, p: NodeId, i: nat) returns (m: nat)
    requires i < |us| && us[i].id == p
    ensures m < |us| && us[m].id == p && forall k :: 0 <= k < |us| && us[k].id == p ==> us[k].inc <= us[m].inc
    decreases |us|
  {
    var n := |us| - 1;
    if exists k :: 0 <= k < n && us[k].id == p {
      var k :| 0 <= k < n && us[k].id == p;
      m := GreatestReport(us[..n], p, k);
      assert us[..n][m] == us[m];
      if us[n].id == p && us[n].inc > us[m].inc {
        m := n;
      }
    } else {
      m := n;
    }
  }

  lemma {:induction false} FirstReportAt(us: seq<Update>, p: NodeId, inc: int, i: nat) returns (f: nat)
    requires i < |us| && us[i].id == p && us[i].inc == inc
    ensures f < |us| && us[f].id == p && us[f].inc == inc
    ensures forall k :: 0 <= k < f && us[k].id == p ==> us[k].inc != inc
    decreases i
  {
    f := i;
    if k :| 0 <= k < i && us[k].id == p && us[k].inc == inc {
      f := FirstReportAt(us, p, inc, k);
    }
  }

  /** Where the greatest incarnation reported is only ever ALIVE, every order resets the counter, if any does. */
  lemma SettledOrder(n: NodeState, us: seq<Update>, p: NodeId, vs: seq<Update>)
    requires p in n.members && Usable(p) && Permuted(us, vs) && !OrderDecides(n, us, p)
    ensures Refreshed(n, vs, p) <==> exists i :: 0 <= i < |us| && AliveAbove(n, us, p, i)
  {
    assert forall u :: u in us <==> u in multiset(us);
    assert forall u :: u in vs <==> u in multiset(vs);
    if Refreshed(n, vs, p) {
      var i :| 0 <= i < |vs| && Refreshes(n, vs, p, i);
      assert vs[i] in us;
      var k :| 0 <= k < |us| && us[k] == vs[i];
      assert AliveAbove(n, us, p, k);
    }
    if i :| 0 <= i < |us| && AliveAbove(n, us, p, i) {
      var m := GreatestReport(us, p, i);
      assert us[m] in vs;
      var o :| 0 <= o < |vs| && vs[o] == us[m];
      var f := FirstReportAt(vs, p, us[m].inc, o);
      forall k | 0 <= k < |vs| && vs[k].id == p ensures vs[k].inc <= us[m].inc {
        assert vs[k] in us;
      }
      assert vs[f] in us;
      var g :| 0 <= g < |us| && us[g] == vs[f];
      assert !TopAccusation(us, p, g);
      assert Refreshes(n, vs, p, f);
    }
  }

  /** Two orders of the same updates can leave a held peer's silence counter different exactly when the peer
      has been silent, some ALIVE report of it is above the held incarnation, and the greatest incarnation
      reported for it has a report that is not ALIVE. */
  lemma {:induction false} MergeTicksDependOnOrder(c: Config, n: NodeState, us: seq<Update>, p: NodeId)
    requires c.id !in n.members && p in n.members
    ensures (exists vs, ws :: Permuted(us, vs) && Permuted(us, ws) && TicksDiffer(c, n, vs, ws, p))
      <==> Usable(p) && n.members[p].ticks != 0 && OrderDecides(n, us, p)
  {
    hide Refreshed, AliveAbove, TopAccusation, Permuted, MergeAll;
    if Usable(p) && n.members[p].ticks != 0 && OrderDecides(n, us, p) {
      var i :| 0 <= i < |us| && AliveAbove(n, us, p, i);
      var j :| 0 <= j < |us| && TopAccusation(us, p, j);
      ToFrontPermutes(us, i);
      ToFrontPermutes(us, j);
      AliveFirstRefreshes(n, us, p, i);
      AccusationFirstPrevents(n, us, p, j);
      MergeTicks(c, n, ToFront(us, i), p);
      MergeTicks(c, n, ToFront(us, j), p);
      assert TicksDiffer(c, n, ToFront(us, i), ToFront(us, j), p);
    }
    forall vs, ws | Permuted(us, vs) && Permuted(us, ws) && TicksDiffer(c, n, vs, ws, p)
      ensures Usable(p) && n.members[p].ticks != 0 && OrderDecides(n, us, p)
    {
      MergeTicks(c, n, vs, p);
      MergeTicks(c, n, ws, p);
      UnusableNeverRefreshed(n, vs, p);
      UnusableNeverRefreshed(n, ws, p);
      if Usable(p) && !OrderDecides(n, us, p) {
        SettledOrder(n, us, p, vs);
        SettledOrder(n, us, p, ws);
      }
    }
  }

  ghost predicate TicksDiffer(c: Config, n: NodeState, vs: seq<Update>, ws: seq<Update>, p: NodeId) {
    var a, b := MergeAll(c, n, vs).members, MergeAll(c, n, ws).members;
    p in a && p in b && a[p].ticks != b[p].ticks
  }

  lemma UnusableNeverRefreshed(n: NodeState, us: seq<Update>, p: NodeId)
    requires p in n.members
    ensures Refreshed(n, us, p) ==> Usable(p)
  {}

  // ----- DEAD is sticky per incarnation -----

  function DeathKey(m: Member): (int, int) {
    (m.inc, if m.state == Dead then 1 else 0)
  }

  /** No peer is forgotten, and (incarnation, is-DEAD) never goes down. */
  ghost predicate NoResurrection(n: NodeState, r: NodeState) {
    && n.inc <= r.inc
    && forall p :: p in n.members ==> p in r.members && LexLe(DeathKey(n.members[p]), DeathKey(r.members[p]))
  }

  lemma {:induction false} MergeNoResurrection(c: Config, n: NodeState, us: seq<Update>)
    ensures NoResurrection(n, MergeAll(c, n, us))
  {
    if us != [] {
      MergeNoResurrection(c, n, us[..|us| - 1]);
    }
  }

  lemma HandleNoResurrection(c: Config, n: NodeState, m: Message)
    requires WellFormed(c, n)
    ensures NoResurrection(n, Handle(c, n, m).0)
  {
    hide WellFormed, MergeAll, Encode;
    var merged := MergeAll(c, n, m.gossip);
    MergeNoResurrection(c, n, m.gossip);
    assert NoResurrection(merged, MarkHeard(c, merged, m.sender));
    var heard := if Usable(m.sender) then MarkHeard(c, merged, m.sender) else merged;
    assert Handle(c, n, m).0.members == heard.members;
  }

  lemma {:induction false} HandleAllNoResurrection(c: Config, n: NodeState, inbox: seq<Message>)
    requires WellFormed(c, n)
    ensures NoResurrection(n, HandleAll(c, n, inbox).0)
  {
    if inbox != [] {
      HandleAllNoResurrection(c, n, inbox[..|inbox| - 1]);
      HandleNoResurrection(c, HandleAll(c, n, inbox[..|inbox| - 1]).0, inbox[|inbox| - 1]);
    }
  }

  lemma TickNoResurrection(c: Config, n: NodeState, inbox: seq<Message>)
    requires WellFormed(c, n)
    ensures NoResurrection(n, Tick(c, n, inbox).0)
  {
    HandleAllNoResurrection(c, n, inbox);
    var h := HandleAll(c, n, inbox).0;
    assert NoResurrection(h, Age(c, h));
    assert Tick(c, n, inbox).0.members == Age(c, h).members;
  }

  lemma NoResurrectionTrans(a: NodeState, b: NodeState, d: NodeState)
    requires NoResurrection(a, b) && NoResurrection(b, d)
    ensures NoResurrection(a, d)
  {
  }

  /** Over any number of ticks with any inboxes, no peer is dropped and (incarnation, is-DEAD)
      never goes down. */
  lemma {:induction false} TicksNoResurrection(c: Config, n: NodeState, inboxes: seq<seq<Message>>)
    requires WellFormed(c, n)
    ensures NoResurrection(n, Ticks(c, n, inboxes))
  {
    if inboxes != [] {
      var init, last := inboxes[..|inboxes| - 1], inboxes[|inboxes| - 1];
      TicksNoResurrection(c, n, init);
      TickNoResurrection(c, Ticks(c, n, init), last);
      NoResurrectionTrans(n, Ticks(c, n, init), Ticks(c, n, inboxes));
    }
  }

  /** So a DEAD peer is seen otherwise only at a strictly higher incarnation. */
  lemma DeadIsSticky(c: Config, n: NodeState, inboxes: seq<seq<Message>>, p: NodeId)
    requires WellFormed(c, n)
    requires p in n.members && n.members[p].state == Dead
    ensures
      var r := Ticks(c, n, inboxes).members;
      p in r && (r[p].state == Dead || r[p].inc > n.members[p].inc)
  {
    TicksNoResurrection(c, n, inboxes);
  }

  function Ticks(c: Config, n: NodeState, inboxes: seq<seq<Message>>): (r: NodeState)
    requires WellFormed(c, n)
    ensures WellFormed(c, r)
  {
    if inboxes == [] then n
    else Tick(c, Ticks(c, n, inboxes[..|inboxes| - 1]), inboxes[|inboxes| - 1]).0
  }
}
