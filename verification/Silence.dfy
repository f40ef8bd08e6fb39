/** What hearing a peer does to its silence counter, and how long a silent peer is held ALIVE and SUSPECT: first
    for one frame, then for whole runs of ticks with any inboxes. */
module Silence {
  import opened Common
  import opened Membership

  // ----- one frame -----

  /** A frame that leaves its sender known and not DEAD leaves it ALIVE with no silent ticks. */
  lemma {:induction false} HearingResets(c: Config, n: NodeState, m: Message)
    requires WellFormed(c, n) && Usable(m.sender) && m.sender != c.id
    ensures var after := Handle(c, n, m).0.members;
      m.sender in after && after[m.sender].state != Dead ==>
        after[m.sender].state == Alive && after[m.sender].ticks == 0
  {
    hide WellFormed, MergeAll, Encode;
    var merged := MergeAll(c, n, m.gossip);
    assert Handle(c, n, m).0.members == MarkHeard(c, merged, m.sender).members;
  }

  /** A frame is answered exactly when it is a ping from a usable sender: by one ack, to that sender, under the
      next sequence number. */
  lemma {:induction false} OnlyPingsAnswered(c: Config, n: NodeState, m: Message)
    requires WellFormed(c, n)
    ensures var (after, sent) := Handle(c, n, m);
      if m.isPing && m.sender.name != "" && |m.sender.name| <= 256
      then |sent| == 1 && sent[0].dest == m.sender && Own(c, n.seqNo, sent, 0) && !sent[0].msg.isPing
        && after.seqNo == n.seqNo + 1
      else sent == [] && after.seqNo == n.seqNo
  {
    hide WellFormed, MergeAll, Digest;
    var merged := MergeAll(c, n, m.gossip);
    MergeSendsNothing(c, n, m.gossip);
    assert Usable(m.sender) ==> MarkHeard(c, merged, m.sender).seqNo == merged.seqNo;
  }

  lemma {:induction false} MergeSendsNothing(c: Config, n: NodeState, us: seq<Update>)
    ensures MergeAll(c, n, us).seqNo == n.seqNo
  {
    if us != [] {
      MergeSendsNothing(c, n, us[..|us| - 1]);
    }
  }

  /** The i-th packet bears the node's name and the i-th sequence number after `from`. */
  ghost predicate Own(c: Config, from: nat, sent: seq<Packet>, i: nat)
    requires i < |sent|
  {
    sent[i].msg.sender == c.id && sent[i].msg.seqNo == from + 1 + i
  }

  ghost predicate Numbered(c: Config, from: nat, sent: seq<Packet>) {
    forall i :: 0 <= i < |sent| ==> Own(c, from, sent, i)
  }

  lemma NumberedOn(c: Config, from: nat, a: seq<Packet>, b: seq<Packet>)
    requires Numbered(c, from, a) && Numbered(c, from + |a|, b)
    ensures Numbered(c, from, a + b)
  {
    forall i | 0 <= i < |a + b| ensures Own(c, from, a + b, i) {
      assert if i < |a| then Own(c, from, a, i) && (a + b)[i] == a[i]
        else Own(c, from + |a|, b, i - |a|) && (a + b)[i] == b[i - |a|];
    }
  }

  lemma {:induction false} AnswersNumbered(c: Config, n: NodeState, inbox: seq<Message>)
    requires WellFormed(c, n)
    ensures Numbered(c, n.seqNo, HandleAll(c, n, inbox).1)
    ensures HandleAll(c, n, inbox).0.seqNo == n.seqNo + |HandleAll(c, n, inbox).1|
  {
    hide WellFormed, Handle;
    if inbox != [] {
      var init, m := inbox[..|inbox| - 1], inbox[|inbox| - 1];
      var (mid, acks) := HandleAll(c, n, init);
      AnswersNumbered(c, n, init);
      OnlyPingsAnswered(c, mid, m);
      NumberedOn(c, n.seqNo, acks, Handle(c, mid, m).1);
    }
  }

  lemma {:induction false} PingsNumbered(c: Config, n: NodeState, k: nat)
    requires WellFormed(c, n) && k <= |n.order|
    ensures Numbered(c, n.seqNo, ProbePrefix(c, n, k).1)
    ensures ProbePrefix(c, n, k).0.seqNo == n.seqNo + |ProbePrefix(c, n, k).1|
  {
    hide WellFormed, Digest, ProbePrefix;
    NoneProbed(c, n);
    if k > 0 {
      var (before, sent) := ProbePrefix(c, n, k - 1);
      PingsNumbered(c, n, k - 1);
      ProbedOneMore(c, n, k - 1);
      NumberedOn(c, n.seqNo, sent, [Packet(n.order[k - 1], Encode(c, before, true))]);
    }
  }

  lemma {:induction false} OnlyPings(c: Config, n: NodeState, k: nat)
    requires WellFormed(c, n) && k <= |n.order|
    ensures forall i :: 0 <= i < |ProbePrefix(c, n, k).1| ==> ProbePrefix(c, n, k).1[i].msg.isPing
  {
    hide WellFormed, Digest, ProbePrefix;
    NoneProbed(c, n);
    if k > 0 {
      OnlyPings(c, n, k - 1);
      ProbedOneMore(c, n, k - 1);
    }
  }

  /** Whatever a tick receives, the packets it sends bear the node's name and consecutive sequence numbers. */
  lemma {:induction false} SentInSequence(c: Config, n: NodeState, inbox: seq<Message>)
    requires WellFormed(c, n)
    ensures var (after, sent) := Tick(c, n, inbox);
      && after.seqNo == n.seqNo + |sent|
      && (forall i :: 0 <= i < |sent| ==> sent[i].msg.sender == c.id && sent[i].msg.seqNo == n.seqNo + 1 + i)
  {
    hide WellFormed, HandleAll, ProbePrefix;
    var h := HandleAll(c, n, inbox);
    AgeKeeps(c, h.0);
    var aged := Age(c, h.0);
    AnswersNumbered(c, n, inbox);
    PingsNumbered(c, aged, |aged.order|);
    NumberedOn(c, n.seqNo, h.1, Probe(c, aged).1);
    var sent := Tick(c, n, inbox).1;
    forall i | 0 <= i < |sent| ensures sent[i].msg.sender == c.id && sent[i].msg.seqNo == n.seqNo + 1 + i {
      assert Own(c, n.seqNo, sent, i);
    }
  }

  /** How often a packet for `p` is among those sent. */
  function SentTo(sent: seq<Packet>, p: NodeId): nat {
    if sent == [] then 0
    else SentTo(sent[..|sent| - 1], p) + if sent[|sent| - 1].dest == p then 1 else 0
  }

  lemma {:induction false} ProbedSoFar(c: Config, n: NodeState, k: nat, p: NodeId)
    requires WellFormed(c, n) && k <= |n.order|
    ensures SentTo(ProbePrefix(c, n, k).1, p)
      == if p in n.order[..k] && p in n.members && n.members[p].state != Dead then 1 else 0
  {
    hide WellFormed, Encode, ProbePrefix;
    NoneProbed(c, n);
    if k > 0 {
      var (before, sent) := ProbePrefix(c, n, k - 1);
      ProbedSoFar(c, n, k - 1, p);
      ProbedOneMore(c, n, k - 1);
      WellListed(c, n);
      assert n.order[..k] == n.order[..k - 1] + [n.order[k - 1]];
      var ping := Packet(n.order[k - 1], Encode(c, before, true));
      assert (sent + [ping])[..|sent|] == sent;
    }
  }

  /** A probe round sends each peer that is not DEAD one ping, nobody else anything, and changes nothing else. */
  lemma {:induction false} ProbesTheLiving(c: Config, n: NodeState, p: NodeId)
    requires WellFormed(c, n)
    ensures var (after, sent) := Probe(c, n);
      && SentTo(sent, p) == (if p in n.members && n.members[p].state != Dead then 1 else 0)
      && (forall i :: 0 <= i < |sent| ==> sent[i].msg.isPing)
      && after.members == n.members && after.inc == n.inc
  {
    hide WellFormed, ProbePrefix;
    ProbedSoFar(c, n, |n.order|, p);
    OnlyPings(c, n, |n.order|);
    WellListed(c, n);
    assert n.order[..|n.order|] == n.order;
  }

  // ----- who is learned -----

  ghost predicate Reports(us: seq<Update>, p: NodeId) {
    exists i :: 0 <= i < |us| && us[i].id == p
  }

  /** The frame is from `p` or reports on it. */
  ghost predicate Names(m: Message, p: NodeId) {
    m.sender == p || Reports(m.gossip, p)
  }

  lemma ReportsSnoc(us: seq<Update>, u: Update, p: NodeId)
    ensures Reports(us + [u], p) <==> Reports(us, p) || u.id == p
  {
    var all := us + [u];
    if i :| 0 <= i < |us| && us[i].id == p {
      assert all[i].id == p;
    }
    assert all[|us|] == u;
  }

  ghost predicate MayBeLearned(c: Config, p: NodeId) {
    p != c.id && p.name != "" && |p.name| <= 256 && c.mayLearn(p)
  }

  lemma {:induction false} MergeLearns(c: Config, n: NodeState, us: seq<Update>, p: NodeId)
    requires c.id !in n.members && p !in n.members
    ensures p in MergeAll(c, n, us).members <==> MayBeLearned(c, p) && Reports(us, p)
    ensures p in MergeAll(c, n, us).members ==> MergeAll(c, n, us).members[p].ticks == 0
  {
    hide Reports;
    if us == [] {
      NoReports(p);
    } else {
      var init, u := us[..|us| - 1], us[|us| - 1];
      MergeIsJoin(c, n, init);
      MergeLearns(c, n, init, p);
      assert us == init + [u];
      ReportsSnoc(init, u, p);
    }
  }

  lemma NoReports(p: NodeId)
    ensures !Reports([], p)
  {}

  /** A stranger is learned from a frame exactly when the frame names it and it may be learned; it then counts no
      silent ticks, and where the frame merely came from it, it is ALIVE at incarnation 0. */
  lemma {:induction false} StrangerLearnedIff(c: Config, n: NodeState, m: Message, p: NodeId)
    requires WellFormed(c, n) && p !in n.members
    ensures var after := Handle(c, n, m).0.members;
      && (p in after <==> MayBeLearned(c, p) && Names(m, p))
      && (p in after ==> after[p].ticks == 0)
      && (p in after && m.gossip == [] ==> after[p] == Member(0, Alive, 0))
  {
    hide WellFormed, MergeAll, Encode, Listing, Reports, IsJoin;
    OwnUnheld(c, n);
    NoReports(p);
    MergeLearns(c, n, m.gossip, p);
    MergeIsJoin(c, n, m.gossip);
    var merged := MergeAll(c, n, m.gossip);
    assert Handle(c, n, m).0.members ==
      if Usable(m.sender) then MarkHeard(c, merged, m.sender).members else merged.members;
  }

  lemma OwnUnheld(c: Config, n: NodeState)
    requires WellFormed(c, n)
    ensures c.id !in n.members
  {}

  ghost predicate NamedIn(inbox: seq<Message>, p: NodeId) {
    exists i :: 0 <= i < |inbox| && Names(inbox[i], p)
  }

  lemma NoneNamed(p: NodeId)
    ensures !NamedIn([], p)
  {}

  lemma NamedSnoc(inbox: seq<Message>, m: Message, p: NodeId)
    ensures NamedIn(inbox + [m], p) <==> NamedIn(inbox, p) || Names(m, p)
  {
    hide Names;
    var all := inbox + [m];
    if i :| 0 <= i < |inbox| && Names(inbox[i], p) {
      assert Names(all[i], p);
    }
    assert all[|inbox|] == m;
  }

  lemma {:induction false} InboxLearns(c: Config, n: NodeState, inbox: seq<Message>, p: NodeId)
    requires WellFormed(c, n)
    ensures p in HandleAll(c, n, inbox).0.members <==>
      p in n.members || (MayBeLearned(c, p) && NamedIn(inbox, p))
  {
    hide WellFormed, Handle, MayBeLearned, Names, NamedIn;
    if inbox == [] {
      NoneNamed(p);
    } else {
      var init, m := inbox[..|inbox| - 1], inbox[|inbox| - 1];
      InboxLearns(c, n, init, p);
      assert inbox == init + [m];
      NamedSnoc(init, m, p);
      var mid := HandleAll(c, n, init).0;
      if p in mid.members {
        HandleNoResurrection(c, mid, m);
      } else {
        StrangerLearnedIff(c, mid, m, p);
      }
    }
  }

  /** Over any run, the peers known are those known at its start and those the gate admits that some frame named. */
  lemma {:induction false} KnownExactly(c: Config, n: NodeState, inboxes: seq<seq<Message>>, p: NodeId)
    requires WellFormed(c, n)
    ensures p in Ticks(c, n, inboxes).members <==>
      p in n.members || (MayBeLearned(c, p) && exists i :: 0 <= i < |inboxes| && NamedIn(inboxes[i], p))
  {
    hide WellFormed, HandleAll, MayBeLearned, NamedIn, ProbePrefix;
    if inboxes != [] {
      var init, last := inboxes[..|inboxes| - 1], inboxes[|inboxes| - 1];
      KnownExactly(c, n, init, p);
      assert inboxes == init + [last];
      var mid := Ticks(c, n, init);
      InboxLearns(c, mid, last, p);
      var h := HandleAll(c, mid, last).0;
      AgeKeeps(c, h);
      assert Ticks(c, n, inboxes).members == Age(c, h).members;
    }
  }

  // ----- silent ticks -----

  /** What a node holds of a peer after `k` ticks in which nothing reaches it about that peer. */
  function Aged(c: Config, m: Member, k: nat): Member
    decreases k
  {
    if k == 0 then m else AgeMember(c, Aged(c, m, k - 1))
  }

  /** A peer held ALIVE is ALIVE exactly while it has been silent for fewer than `suspect_after` ticks, SUSPECT
      exactly from then until `dead_after` more, and DEAD from then on. */
  lemma {:induction false} Timeline(c: Config, m: Member, k: nat)
    requires ValidConfig(c) && m.state == Alive && m.ticks < c.suspectAfter
    ensures var aged := Aged(c, m, k);
      && (aged.state == Alive <==> m.ticks + k < c.suspectAfter)
      && (aged.state == Suspect <==> c.suspectAfter <= m.ticks + k < c.suspectAfter + c.deadAfter)
      && (aged.state == Dead <==> m.ticks + k >= c.suspectAfter + c.deadAfter)
      && aged.ticks == Min(m.ticks + k, c.suspectAfter + c.deadAfter) && aged.inc == m.inc
    decreases k
  {
    if k > 0 {
      Timeline(c, m, k - 1);
    }
  }

  /** A peer held SUSPECT, however it came to be, is DEAD exactly once it has been silent for both spans together,
      one silent tick at least. */
  lemma {:induction false} SuspectTimeline(c: Config, m: Member, k: nat)
    requires ValidConfig(c) && m.state == Suspect && k >= 1
    ensures var aged := Aged(c, m, k);
      && (aged.state == Dead <==> m.ticks + k >= c.suspectAfter + c.deadAfter)
      && (aged.state == Suspect <==> m.ticks + k < c.suspectAfter + c.deadAfter)
      && (aged.state == Suspect ==> aged.ticks == m.ticks + k) && aged.inc == m.inc
    decreases k
  {
    if k > 1 {
      SuspectTimeline(c, m, k - 1);
    } else {
      assert Aged(c, m, 0) == m;
    }
  }

  // ----- any run of ticks -----

  /** Some frame of the inbox is from `p`, and is one a node takes note of. */
  ghost predicate HeardIn(inbox: seq<Message>, p: NodeId) {
    p.name != "" && |p.name| <= 256 && exists i :: 0 <= i < |inbox| && inbox[i].sender == p
  }

  /** The gossip says nothing of `p` that is worse than ALIVE at `inc`. */
  ghost predicate NoNews(us: seq<Update>, p: NodeId, inc: int) {
    forall i :: 0 <= i < |us| && us[i].id == p ==> us[i].inc < inc || (us[i].inc == inc && us[i].state == Alive)
  }

  ghost predicate NoNewsIn(inbox: seq<Message>, p: NodeId, inc: int) {
    forall i :: 0 <= i < |inbox| ==> NoNews(inbox[i].gossip, p, inc)
  }

  ghost predicate NoNewsThroughout(inboxes: seq<seq<Message>>, p: NodeId, inc: int) {
    forall i :: 0 <= i < |inboxes| ==> NoNewsIn(inboxes[i], p, inc)
  }

  /** For how many ticks `p` has been silent after these inboxes, the tick it is heard in included. */
  ghost function Silent(inboxes: seq<seq<Message>>, p: NodeId, before: nat): nat {
    if inboxes == [] then before
    else
      var last := |inboxes| - 1;
      (if HeardIn(inboxes[last], p) then 0 else Silent(inboxes[..last], p, before)) + 1
  }

  ghost predicate Holds(n: NodeState, p: NodeId, m: Member) {
    p in n.members && n.members[p] == m
  }

  lemma {:induction false} MergeWithoutNews(c: Config, n: NodeState, us: seq<Update>, p: NodeId, m: Member)
    requires p != c.id && Holds(n, p, m) && NoNews(us, p, m.inc)
    ensures Holds(MergeAll(c, n, us), p, m)
  {
    if us != [] {
      MergeWithoutNews(c, n, us[..|us| - 1], p, m);
    }
  }

  function Hearing(m: Member): Member {
    if m.state == Dead then m else Member(m.inc, Alive, 0)
  }

  lemma FrameWithoutNews(c: Config, n: NodeState, f: Message, p: NodeId, m: Member)
    requires WellFormed(c, n) && Holds(n, p, m) && NoNews(f.gossip, p, m.inc)
    ensures Holds(Handle(c, n, f).0, p, if f.sender == p && p.name != "" && |p.name| <= 256 then Hearing(m) else m)
  {
    hide NoNews, MergeAll, Encode;
    MergeWithoutNews(c, n, f.gossip, p, m);
    var merged := MergeAll(c, n, f.gossip);
    assert Handle(c, n, f).0.members ==
      if Usable(f.sender) then MarkHeard(c, merged, f.sender).members else merged.members;
  }

  lemma NoneHeard(p: NodeId)
    ensures !HeardIn([], p)
  {}

  lemma HeardSnoc(inbox: seq<Message>, f: Message, p: NodeId)
    ensures HeardIn(inbox + [f], p) <==> HeardIn(inbox, p) || (f.sender == p && p.name != "" && |p.name| <= 256)
  {
    var all := inbox + [f];
    if i :| 0 <= i < |inbox| && inbox[i].sender == p {
      assert all[i].sender == p;
    }
    assert all[|inbox|] == f;
  }

  lemma {:induction false} InboxWithoutNews(c: Config, n: NodeState, inbox: seq<Message>, p: NodeId, m: Member)
    requires WellFormed(c, n) && Holds(n, p, m) && NoNewsIn(inbox, p, m.inc)
    ensures Holds(HandleAll(c, n, inbox).0, p, if HeardIn(inbox, p) then Hearing(m) else m)
  {
    hide WellFormed, Handle, NoNews, HeardIn;
    if inbox == [] {
      NoneHeard(p);
    } else {
      var init, f := inbox[..|inbox| - 1], inbox[|inbox| - 1];
      InboxWithoutNews(c, n, init, p, m);
      assert inbox == init + [f];
      HeardSnoc(init, f, p);
      FrameWithoutNews(c, HandleAll(c, n, init).0, f, p, if HeardIn(init, p) then Hearing(m) else m);
    }
  }

  lemma TickWithoutNews(c: Config, n: NodeState, inbox: seq<Message>, p: NodeId, m: Member)
    requires WellFormed(c, n) && Holds(n, p, m) && NoNewsIn(inbox, p, m.inc)
    ensures Holds(Tick(c, n, inbox).0, p, AgeMember(c, if HeardIn(inbox, p) then Hearing(m) else m))
  {
    hide WellFormed, HandleAll, HeardIn, NoNewsIn, AgeMember, ProbePrefix;
    InboxWithoutNews(c, n, inbox, p, m);
    var h := HandleAll(c, n, inbox).0;
    AgeKeeps(c, h);
    assert Tick(c, n, inbox).0.members == Age(c, h).members;
  }

  /** At some moment so far `p` had been silent for `suspect_after + dead_after` ticks. */
  ghost predicate GivenUp(c: Config, inboxes: seq<seq<Message>>, p: NodeId, before: nat) {
    exists k :: 0 <= k <= |inboxes| && Silent(inboxes[..k], p, before) >= c.suspectAfter + c.deadAfter
  }

  lemma GivenUpSnoc(c: Config, init: seq<seq<Message>>, last: seq<Message>, p: NodeId, before: nat)
    ensures var all := init + [last];
      GivenUp(c, all, p, before) <==>
        GivenUp(c, init, p, before) || Silent(all, p, before) >= c.suspectAfter + c.deadAfter
  {
    hide Silent;
    var all := init + [last];
    assert all[..|all|] == all;
    assert forall k :: 0 <= k <= |init| ==> all[..k] == init[..k];
    if k :| 0 <= k <= |init| && Silent(init[..k], p, before) >= c.suspectAfter + c.deadAfter {
      assert all[..k] == init[..k];
    }
  }

  /** What a node holds of a peer at every moment of any run, whatever else it receives, while no gossip brings
      news of that peer: DEAD exactly once the peer has been silent for `suspect_after + dead_after` ticks, and
      before that ALIVE exactly while it has been silent for fewer than `suspect_after`. */
  lemma {:induction false} HeldExactly(c: Config, n: NodeState, inboxes: seq<seq<Message>>, p: NodeId)
    requires WellFormed(c, n) && p in n.members && n.members[p].state == Alive
    requires NoNewsThroughout(inboxes, p, n.members[p].inc)
    ensures var held := Ticks(c, n, inboxes).members;
      var silent := Silent(inboxes, p, n.members[p].ticks);
      && p in held && held[p].inc == n.members[p].inc
      && (held[p].state == Dead <==> GivenUp(c, inboxes, p, n.members[p].ticks))
      && (held[p].state == Alive <==> !GivenUp(c, inboxes, p, n.members[p].ticks) && silent < c.suspectAfter)
      && (held[p].state != Dead ==> held[p].ticks == silent)
  {
    hide HeardIn, NoNewsIn, Tick;
    var before := n.members[p].ticks;
    if inboxes == [] {
      assert inboxes[..0] == [];
      AtFirst(c, n, p);
    } else {
      var init, last := inboxes[..|inboxes| - 1], inboxes[|inboxes| - 1];
      HeldExactly(c, n, init, p);
      assert init + [last] == inboxes;
      GivenUpSnoc(c, init, last, p, before);
      var r := Ticks(c, n, init);
      TickWithoutNews(c, r, last, p, r.members[p]);
    }
  }

  lemma AtFirst(c: Config, n: NodeState, p: NodeId)
    requires WellFormed(c, n) && p in n.members && n.members[p].state == Alive
    ensures n.members[p].ticks < c.suspectAfter && Ticks(c, n, []) == n
  {}

  // ----- how often a peer must be heard -----

  /** Every `w` ticks on end hear `p`. */
  ghost predicate HeardEvery(inboxes: seq<seq<Message>>, p: NodeId, w: nat) {
    forall i :: 0 <= i <= |inboxes| - w ==> HeardWithin(inboxes, p, i, w)
  }

  ghost predicate HeardWithin(inboxes: seq<seq<Message>>, p: NodeId, lo: nat, w: nat) {
    exists j :: lo <= j < lo + w && j < |inboxes| && HeardIn(inboxes[j], p)
  }

  /** After no tick of the run is `p` held otherwise than ALIVE. */
  ghost predicate AliveThroughout(c: Config, n: NodeState, inboxes: seq<seq<Message>>, p: NodeId)
    requires WellFormed(c, n)
  {
    forall k :: 0 <= k <= |inboxes| ==> HeldAlive(Ticks(c, n, inboxes[..k]), p)
  }

  ghost predicate HeldAlive(n: NodeState, p: NodeId) {
    p in n.members && n.members[p].state == Alive
  }

  /** A peer stays ALIVE throughout exactly if at every moment it has been silent for fewer than
      `suspect_after` ticks. */
  lemma {:induction false} AliveThroughoutIff(c: Config, n: NodeState, inboxes: seq<seq<Message>>, p: NodeId)
    requires WellFormed(c, n) && p in n.members && n.members[p].state == Alive
    requires NoNewsThroughout(inboxes, p, n.members[p].inc)
    ensures AliveThroughout(c, n, inboxes, p) <==>
      forall k :: 0 <= k <= |inboxes| ==> Silent(inboxes[..k], p, n.members[p].ticks) < c.suspectAfter
  {
    hide WellFormed, Silent, NoNewsIn;
    var before := n.members[p].ticks;
    PositiveBounds(c, n);
    forall k | 0 <= k <= |inboxes|
      ensures HeldAlive(Ticks(c, n, inboxes[..k]), p) <==>
        !GivenUp(c, inboxes[..k], p, before) && Silent(inboxes[..k], p, before) < c.suspectAfter
    {
      HeldExactly(c, n, inboxes[..k], p);
    }
    if forall k :: 0 <= k <= |inboxes| ==> Silent(inboxes[..k], p, before) < c.suspectAfter {
      forall k | 0 <= k <= |inboxes| ensures !GivenUp(c, inboxes[..k], p, before) {
        assert forall j :: 0 <= j <= k ==> inboxes[..k][..j] == inboxes[..j];
      }
    }
  }

  lemma PositiveBounds(c: Config, n: NodeState)
    requires WellFormed(c, n)
    ensures c.suspectAfter >= 1 && c.deadAfter >= 1
  {}

  lemma {:induction false} SilentAtMost(inboxes: seq<seq<Message>>, p: NodeId, w: nat)
    requires HeardEvery(inboxes, p, w)
    ensures Silent(inboxes, p, 0) <= w
  {
    var n := |inboxes|;
    if n >= w {
      assert HeardWithin(inboxes, p, n - w, w);
      var j :| n - w <= j < n && HeardIn(inboxes[j], p);
      SilentSince(inboxes, p, 0, j);
    } else {
      SilentInAll(inboxes, p, 0);
    }
  }

  lemma {:induction false} SilentSince(inboxes: seq<seq<Message>>, p: NodeId, before: nat, j: nat)
    requires j < |inboxes| && HeardIn(inboxes[j], p)
    ensures Silent(inboxes, p, before) <= |inboxes| - j
  {
    if j < |inboxes| - 1 {
      SilentSince(inboxes[..|inboxes| - 1], p, before, j);
    }
  }

  lemma {:induction false} SilentInAll(inboxes: seq<seq<Message>>, p: NodeId, before: nat)
    ensures Silent(inboxes, p, before) <= before + |inboxes|
  {
    if inboxes != [] {
      SilentInAll(inboxes[..|inboxes| - 1], p, before);
    }
  }

  lemma HeardEveryPrefix(inboxes: seq<seq<Message>>, p: NodeId, w: nat, k: nat)
    requires HeardEvery(inboxes, p, w) && k <= |inboxes|
    ensures HeardEvery(inboxes[..k], p, w)
  {
    forall i | 0 <= i <= k - w ensures HeardWithin(inboxes[..k], p, i, w) {
      assert HeardWithin(inboxes, p, i, w);
      var j :| i <= j < i + w && j < |inboxes| && HeardIn(inboxes[j], p);
      assert inboxes[..k][j] == inboxes[j];
    }
  }

  /** One frame from `p`, and then nothing for `quiet` ticks. */
  function OnceThenQuiet(p: NodeId, quiet: nat): seq<seq<Message>> {
    [[Message(true, p, 0, [])]] + seq(quiet, i => [])
  }

  lemma {:induction false} QuietSince(p: NodeId, quiet: nat)
    requires Usable(p)
    ensures Silent(OnceThenQuiet(p, quiet), p, 0) == quiet + 1
  {
    var all: seq<seq<Message>> := OnceThenQuiet(p, quiet);
    if quiet == 0 {
      assert all[0][0].sender == p;
    } else {
      QuietSince(p, quiet - 1);
      assert all[..quiet] == OnceThenQuiet(p, quiet - 1);
      assert all[quiet] == [];
    }
  }

  lemma QuietIsHeardEvery(p: NodeId, w: nat)
    requires Usable(p) && w >= 1
    ensures HeardEvery(OnceThenQuiet(p, w - 1), p, w)
  {
    var all: seq<seq<Message>> := OnceThenQuiet(p, w - 1);
    assert all[0][0].sender == p;
    assert HeardWithin(all, p, 0, w);
  }

  /** Being heard once in every `w` ticks on end keeps a peer ALIVE, whatever else arrives that brings no news of
      it, exactly for `w < suspect_after`: with `w == suspect_after`, a peer heard in the first tick and next in
      the one after the window is suspected between the two. */
  lemma {:induction false} HeardOftenEnoughIff(c: Config, n: NodeState, p: NodeId, w: nat)
    requires WellFormed(c, n) && p in n.members && n.members[p].state == Alive && n.members[p].ticks == 0
    requires Usable(p)
    ensures (forall inboxes :: NoNewsThroughout(inboxes, p, n.members[p].inc) && HeardEvery(inboxes, p, w) ==>
        AliveThroughout(c, n, inboxes, p))
      <==> w < c.suspectAfter
  {
    hide WellFormed, Silent, HeardEvery, AliveThroughout, Usable;
    var inc := n.members[p].inc;
    if w < c.suspectAfter {
      forall inboxes | NoNewsThroughout(inboxes, p, inc) && HeardEvery(inboxes, p, w)
        ensures AliveThroughout(c, n, inboxes, p)
      {
        forall k | 0 <= k <= |inboxes| ensures Silent(inboxes[..k], p, 0) < c.suspectAfter {
          HeardEveryPrefix(inboxes, p, w, k);
          SilentAtMost(inboxes[..k], p, w);
        }
        AliveThroughoutIff(c, n, inboxes, p);
      }
    } else {
      PositiveBounds(c, n);
      var quiet := OnceThenQuiet(p, w - 1);
      QuietSince(p, w - 1);
      QuietIsHeardEvery(p, w);
      assert quiet[..|quiet|] == quiet;
      AliveThroughoutIff(c, n, quiet, p);
      assert NoNewsThroughout(quiet, p, inc);
    }
  }
}
