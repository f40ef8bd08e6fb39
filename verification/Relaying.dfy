/** What a router may do with a message, told by its table, its gate, what it has seen and the TTL; and what that
    says of every message in flight in any run of the network. */
module Relaying {
  import opened Common
  import opened Runs
  import opened Routing

  /** Not seen before, and meant for another node. */
  predicate InTransit(id: string, seen: set<string>, m: RoutedMessage) {
    m.msgId !in seen && m.dest != id
  }

  /** Each answer a router gives, and exactly when: nothing else decides. */
  lemma {:induction false} DecidedExactly(id: string, t: Tables, seen: set<string>, m: RoutedMessage)
    ensures var d, hop := Decide(id, t, seen, m), t.nextHop(m.dest);
      && (d == Drop(DuplicateId) <==> m.msgId in seen)
      && (d.Deliver? <==> m.msgId !in seen && m.dest == id) && (d.Deliver? ==> d.payload == m.payload)
      && (d == Drop(TtlExhausted) <==> InTransit(id, seen, m) && m.ttl <= 1)
      && (d == Drop(NoRoute) <==> InTransit(id, seen, m) && m.ttl >= 2 && hop.None?)
      && (d == Drop(NextHopNotAdmitted) <==>
            InTransit(id, seen, m) && m.ttl >= 2 && hop.Some? && !t.isRoutable(hop.value))
      && (d.Forward? <==> InTransit(id, seen, m) && m.ttl >= 2 && hop.Some? && t.isRoutable(hop.value))
      && (d.Forward? ==> hop == Some(d.nextHop) && d.forwarded == m.(ttl := m.ttl - 1))
  {}

  // ----- where a message in flight comes from -----

  /** At step `k` of the run some node, whose table at that moment named `f.at` and whose gate admitted it, handled
      the message `f` carries, then at one TTL more and for the first time there, and sent it on. */
  ghost predicate RelayedAt(net: Network, steps: seq<Step>, k: nat, f: Flight)
    requires k < |steps|
  {
    var before, s := Run(Next, net, steps[..k]), steps[k];
    Handles(before, s) &&
      var g := before.inFlight[s.i];
      && s.tables.nextHop(g.msg.dest) == Some(f.at) && s.tables.isRoutable(f.at)
      && f.msg == g.msg.(ttl := g.msg.ttl - 1) && f.hops == g.hops + 1 && f.startTtl == g.startTtl
      && InTransit(g.at, before.seen[g.at], g.msg) && f.msg.ttl >= 1
  }

  ghost predicate Relayed(net: Network, steps: seq<Step>, f: Flight) {
    exists k :: 0 <= k < |steps| && RelayedAt(net, steps, k, f)
  }

  lemma RelayedOn(net: Network, steps: seq<Step>, s: Step, f: Flight)
    requires Relayed(net, steps, f)
    ensures Relayed(net, steps + [s], f)
  {
    hide Next, Handles;
    var k :| 0 <= k < |steps| && RelayedAt(net, steps, k, f);
    assert (steps + [s])[..k] == steps[..k] && (steps + [s])[k] == steps[k];
    assert RelayedAt(net, steps + [s], k, f);
  }

  /** What a step puts in flight that was not there: the message it injects, or the one it sends on. */
  lemma NewInFlight(net: Network, s: Step, f: Flight)
    requires f in Next(net, s).inFlight && f !in net.inFlight
    ensures s.Inject? || (Handles(net, s) && f in Onward(net.inFlight[s.i], DecisionAt(net, s)))
    ensures s.Inject? ==> f == Flight(s.at, s.msg, 0, s.msg.ttl)
  {
    hide Decide;
  }

  lemma SentOn(net: Network, s: Step, f: Flight)
    requires Handles(net, s) && f in Onward(net.inFlight[s.i], DecisionAt(net, s))
    ensures RelayedAt(net, [s], 0, f)
  {
    var g := net.inFlight[s.i];
    DecidedExactly(g.at, s.tables, net.seen[g.at], g.msg);
    assert [s][..0] == [];
    assert Run(Next, net, []) == net;
  }

  /** In every run, whatever the tables, losses and repeats, a message that has been forwarded was sent to where it
      is by a node that had it for the first time, to the very peer its table named and its gate admitted then. */
  lemma {:induction false} OnlyAdmittedRelays(net: Network, steps: seq<Step>, f: Flight)
    requires net.inFlight == [] && f in Run(Next, net, steps).inFlight && f.hops > 0
    ensures Relayed(net, steps, f)
    decreases |steps|
  {
    hide Next, Handles, DecisionAt, Onward;
    if steps != [] {
      var init, s := steps[..|steps| - 1], steps[|steps| - 1];
      assert steps == init + [s];
      RunSnoc(Next, net, init, s);
      var before := Run(Next, net, init);
      if f in before.inFlight {
        OnlyAdmittedRelays(net, init, f);
        RelayedOn(net, init, s, f);
      } else {
        NewInFlight(before, s, f);
        SentOn(before, s, f);
        LastRelays(net, init, s, f);
      }
    }
  }

  lemma LastRelays(net: Network, init: seq<Step>, s: Step, f: Flight)
    requires RelayedAt(Run(Next, net, init), [s], 0, f)
    ensures Relayed(net, init + [s], f)
  {
    hide Next, Handles;
    var all := init + [s];
    assert [s][..0] == [] && all[..|init|] == init && all[|init|] == s;
    assert Run(Next, Run(Next, net, init), []) == Run(Next, net, init);
    assert RelayedAt(net, all, |init|, f);
  }

  // ----- nothing is made up on the way -----

  /** The message was put into the network as it is, at the TTL it set out with. */
  ghost predicate Injected(steps: seq<Step>, f: Flight) {
    exists k :: 0 <= k < |steps| && steps[k].Inject? && steps[k].msg == f.msg.(ttl := f.startTtl)
  }

  lemma InjectedOn(steps: seq<Step>, s: Step, f: Flight, g: Flight)
    requires Injected(steps, f) && g.msg == f.msg.(ttl := g.msg.ttl) && g.startTtl == f.startTtl
    ensures Injected(steps + [s], g)
  {
    var k :| 0 <= k < |steps| && steps[k].Inject? && steps[k].msg == f.msg.(ttl := f.startTtl);
    assert (steps + [s])[k] == steps[k];
  }

  /** In every run, each message in flight is one that was injected: destination, id and payload as they were. */
  lemma {:induction false} NothingMadeUp(net: Network, steps: seq<Step>, f: Flight)
    requires net.inFlight == [] && f in Run(Next, net, steps).inFlight
    ensures Injected(steps, f)
    decreases |steps|
  {
    hide Next, Handles, DecisionAt, Onward, Injected;
    if steps != [] {
      var init, s := steps[..|steps| - 1], steps[|steps| - 1];
      assert steps == init + [s];
      RunSnoc(Next, net, init, s);
      var before := Run(Next, net, init);
      if f in before.inFlight {
        NothingMadeUp(net, init, f);
        InjectedOn(init, s, f, f);
      } else {
        NewInFlight(before, s, f);
        if s.Inject? {
          JustInjected(init, s, f);
        } else {
          SentOn(before, s, f);
          HandledWasInFlight(before, s);
          var g := before.inFlight[s.i];
          assert [s][..0] == [] && Run(Next, before, []) == before;
          NothingMadeUp(net, init, g);
          InjectedOn(init, s, g, f);
        }
      }
    }
  }

  lemma JustInjected(init: seq<Step>, s: Step, f: Flight)
    requires s.Inject? && f == Flight(s.at, s.msg, 0, s.msg.ttl)
    ensures Injected(init + [s], f)
  {
    assert (init + [s])[|init|] == s;
  }

  lemma HandledWasInFlight(net: Network, s: Step)
    requires Handles(net, s)
    ensures s.Arrive? && s.i < |net.inFlight| && net.inFlight[s.i] in net.inFlight
  {}

  /** So what a node delivers is the payload of a message injected for that node. */
  lemma {:induction false} OnlyInjectedIsDelivered(net: Network, steps: seq<Step>, s: Step)
    requires net.inFlight == []
    requires var t := Run(Next, net, steps); Handles(t, s) && DecisionAt(t, s).Deliver?
    ensures var t := Run(Next, net, steps);
      exists k :: 0 <= k < |steps| && steps[k].Inject?
        && steps[k].msg.dest == t.inFlight[s.i].at && steps[k].msg.payload == DecisionAt(t, s).payload
        && steps[k].msg.msgId == t.inFlight[s.i].msg.msgId
  {
    hide Next;
    var t := Run(Next, net, steps);
    var g := t.inFlight[s.i];
    NothingMadeUp(net, steps, g);
    DecidedExactly(g.at, s.tables, t.seen[g.at], g.msg);
    var k :| 0 <= k < |steps| && steps[k].Inject? && steps[k].msg == g.msg.(ttl := g.startTtl);
  }

  // ----- what a node remembers -----

  /** At step `k` the node handled a message with this id, whatever came of it. */
  ghost predicate MetAt(net: Network, steps: seq<Step>, k: nat, node: string, id: string)
    requires k < |steps|
  {
    var before := Run(Next, net, steps[..k]);
    Handles(before, steps[k])
    && before.inFlight[steps[k].i].at == node && before.inFlight[steps[k].i].msg.msgId == id
  }

  ghost predicate Met(net: Network, steps: seq<Step>, node: string, id: string) {
    exists k :: 0 <= k < |steps| && MetAt(net, steps, k, node, id)
  }

  lemma MetSnoc(net: Network, init: seq<Step>, s: Step, node: string, id: string)
    ensures Met(net, init + [s], node, id) <==>
      Met(net, init, node, id) || MetAt(net, init + [s], |init|, node, id)
  {
    hide Next, Handles;
    var all := init + [s];
    assert forall k :: 0 <= k < |init| ==> all[..k] == init[..k] && all[k] == init[k];
    forall k | 0 <= k < |init| ensures MetAt(net, all, k, node, id) <==> MetAt(net, init, k, node, id) {
      assert all[..k] == init[..k];
    }
    if Met(net, init, node, id) {
      var k :| 0 <= k < |init| && MetAt(net, init, k, node, id);
      assert MetAt(net, all, k, node, id);
    }
  }

  lemma SeenStep(net: Network, s: Step, node: string, id: string)
    ensures var met := Handles(net, s) && net.inFlight[s.i].at == node && net.inFlight[s.i].msg.msgId == id;
      id in SeenAt(Next(net, s).seen, node) <==> id in SeenAt(net.seen, node) || met
  {
    hide Decide;
  }

  /** A node has seen exactly the ids it had at the start and those of the messages it has handled since, the ones
      it dropped among them. */
  lemma {:induction false} SeenExactly(net: Network, steps: seq<Step>, node: string, id: string)
    ensures id in SeenAt(Run(Next, net, steps).seen, node) <==>
      id in SeenAt(net.seen, node) || Met(net, steps, node, id)
    decreases |steps|
  {
    hide Next, Handles, SeenAt, MetAt;
    if steps != [] {
      var init, s := steps[..|steps| - 1], steps[|steps| - 1];
      assert steps == init + [s];
      RunSnoc(Next, net, init, s);
      SeenExactly(net, init, node, id);
      MetSnoc(net, init, s, node, id);
      SeenStep(Run(Next, net, init), s, node, id);
      MetLast(net, init, s, node, id);
    }
  }

  lemma MetLast(net: Network, init: seq<Step>, s: Step, node: string, id: string)
    ensures var t := Run(Next, net, init);
      MetAt(net, init + [s], |init|, node, id) <==>
        Handles(t, s) && t.inFlight[s.i].at == node && t.inFlight[s.i].msg.msgId == id
  {
    assert (init + [s])[..|init|] == init;
  }
}
