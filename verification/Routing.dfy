/** Multi-hop forwarding: what one router decides about a message, and what a network of routers can
    do with it when routing tables are arbitrary and the network loses, repeats and reorders. */
module Routing {
  import opened Common
  import opened Runs

  const MAX_MSG_ID_LEN: nat := 256

  datatype RoutedMessage = RoutedMessage(dest: string, ttl: int, msgId: string, payload: seq<bv8>)

  datatype DropReason = DuplicateId | TtlExhausted | NoRoute | NextHopNotAdmitted

  datatype Decision =
    | Deliver(payload: seq<bv8>)
    | Forward(nextHop: string, forwarded: RoutedMessage)
    | Drop(reason: DropReason)

  /** What constructing a message demands of its fields. */
  predicate ValidMessage(m: RoutedMessage) {
    && m.dest != "" && |m.dest| <= MAX_NODE_ID_LEN
    && m.msgId != "" && |m.msgId| <= MAX_MSG_ID_LEN
    && m.ttl >= 0
  }

  /** A node's routing table and admission gate at the moment it handles a message. */
  datatype Tables = Tables(nextHop: string -> Option<string>, isRoutable: string -> bool)

  function Decide(id: string, t: Tables, seen: set<string>, m: RoutedMessage): (d: Decision)
    ensures d.Forward? && ValidMessage(m) ==> ValidMessage(d.forwarded)
  {
    if m.msgId in seen then Drop(DuplicateId)
    else if m.dest == id then Deliver(m.payload)
    else
      var ttl := m.ttl - 1;
      if ttl <= 0 then Drop(TtlExhausted)
      else
        var nh := t.nextHop(m.dest);
        if nh.None? then Drop(NoRoute)
        else if !t.isRoutable(nh.value) then Drop(NextHopNotAdmitted)
        else Forward(nh.value, m.(ttl := ttl))
  }

  class Router {
    const nodeId: string
    const tables: Tables
    const defaultTtl: int
    var seen: set<string>

    constructor (nodeId: string, tables: Tables, defaultTtl: int)
      requires nodeId != "" && defaultTtl >= 1
      ensures seen == {} && this.nodeId == nodeId && this.tables == tables && this.defaultTtl == defaultTtl
    {
      this.nodeId, this.tables, this.defaultTtl := nodeId, tables, defaultTtl;
      seen := {};
    }

    /** A fresh message, or `None` where a field is refused. */
    method Originate(dest: string, payload: seq<bv8>, msgId: string) returns (r: Option<RoutedMessage>)
      ensures r.Some? <==> 1 <= |dest| <= 256 && 1 <= |msgId| <= 256 && defaultTtl >= 0
      ensures r.Some? ==> r.value == RoutedMessage(dest, defaultTtl, msgId, payload)
    {
      var m := RoutedMessage(dest, defaultTtl, msgId, payload);
      return if ValidMessage(m) then Some(m) else None;
    }

    method Handle(m: RoutedMessage) returns (d: Decision)
      modifies this`seen
      ensures d == Decide(nodeId, tables, old(seen), m)
      ensures seen == old(seen) + {m.msgId}
    {
      if m.msgId in seen {
        return Drop(DuplicateId);
      }
      seen := seen + {m.msgId};
      if m.dest == nodeId {
        return Deliver(m.payload);
      }
      var ttl := m.ttl - 1;
      if ttl <= 0 {
        return Drop(TtlExhausted);
      }
      var nh := tables.nextHop(m.dest);
      if nh.None? {
        return Drop(NoRoute);
      }
      if !tables.isRoutable(nh.value) {
        return Drop(NextHopNotAdmitted);
      }
      return Forward(nh.value, m.(ttl := ttl));
    }
  }

  // ----- a network of routers -----

  /** A message on its way to node `at`, with the forwards it has behind it and the TTL it set out with. */
  datatype Flight = Flight(at: string, msg: RoutedMessage, hops: nat, startTtl: int)

  datatype Network = Network(seen: map<string, set<string>>, inFlight: seq<Flight>)

  /** Any message in flight may arrive next, and the node handling it may by then hold any tables. */
  datatype Step =
    | Arrive(i: nat, tables: Tables)
    | Lose(i: nat)
    | Repeat(i: nat)
    | Inject(at: string, msg: RoutedMessage)

  predicate Handles(net: Network, s: Step) {
    s.Arrive? && s.i < |net.inFlight| && net.inFlight[s.i].at in net.seen
  }

  function DecisionAt(net: Network, s: Step): Decision
    requires Handles(net, s)
  {
    var f := net.inFlight[s.i];
    Decide(f.at, s.tables, net.seen[f.at], f.msg)
  }

  function Without(fs: seq<Flight>, i: nat): seq<Flight>
    requires i < |fs|
  {
    fs[..i] + fs[i + 1..]
  }

  function Onward(f: Flight, d: Decision): seq<Flight> {
    if d.Forward? then [Flight(d.nextHop, d.forwarded, f.hops + 1, f.startTtl)] else []
  }

  /** One step of the network; a step that cannot happen does nothing. */
  function Next(net: Network, s: Step): Network {
    match s
    case Arrive(i, tables) =>
      if !Handles(net, s) then net
      else
        var f := net.inFlight[i];
        Network(net.seen[f.at := net.seen[f.at] + {f.msg.msgId}],
                Without(net.inFlight, i) + Onward(f, DecisionAt(net, s)))
    case Lose(i) => if i < |net.inFlight| then net.(inFlight := Without(net.inFlight, i)) else net
    case Repeat(i) => if i < |net.inFlight| then net.(inFlight := net.inFlight + [net.inFlight[i]]) else net
    case Inject(at, msg) => net.(inFlight := net.inFlight + [Flight(at, msg, 0, msg.ttl)])
  }

  // ----- loop safety -----

  /** 1 when the step has `node` deliver or forward message `id`, else 0. */
  ghost function ActsOn(node: string, id: string): (Network, Step) -> nat {
    (net: Network, s: Step) =>
      if !Handles(net, s) || DecisionAt(net, s).Drop? then 0
      else if net.inFlight[s.i].at == node && net.inFlight[s.i].msg.msgId == id then 1
      else 0
  }

  /** Whatever the tables, and however the network repeats and reorders, a node delivers or forwards
      a message id at most once, and not at all once it has seen it. */
  lemma AtMostOncePerNode(net: Network, steps: seq<Step>, node: string, id: string)
    ensures Total(Next, ActsOn(node, id), net, steps) <= if node in net.seen && id !in net.seen[node] then 1 else 0
  {
    var inv := (t: Network) => true;
    var phi := (t: Network) => if node in t.seen && id !in t.seen[node] then 1 else 0;
    RunPotential(Next, inv, ActsOn(node, id), phi, net, steps);
  }

  function Unaware(net: Network, id: string): set<string> {
    set n | n in net.seen && id !in net.seen[n]
  }

  ghost function Forwards(id: string): (Network, Step) -> nat {
    (net: Network, s: Step) =>
      if Handles(net, s) && net.inFlight[s.i].msg.msgId == id && DecisionAt(net, s).Forward? then 1 else 0
  }

  lemma ForwardsStep(net: Network, s: Step, id: string)
    ensures |Unaware(Next(net, s), id)| + Forwards(id)(net, s) <= |Unaware(net, id)|
  {
    var before, after := Unaware(net, id), Unaware(Next(net, s), id);
    assert after <= before;
    if Forwards(id)(net, s) == 1 {
      var node := net.inFlight[s.i].at;
      assert node in before && node !in after;
      SubsetIsSmaller(after, before - {node});
    } else {
      SubsetIsSmaller(after, before);
    }
  }

  /** A message id is forwarded in all no more often than there are nodes, even round a loop. */
  lemma ForwardsBounded(net: Network, steps: seq<Step>, id: string)
    ensures Total(Next, Forwards(id), net, steps) <= |net.seen.Keys|
  {
    var inv := (t: Network) => true;
    var phi := (t: Network) => |Unaware(t, id)|;
    forall t, s | inv(t) ensures inv(Next(t, s)) && phi(Next(t, s)) + Forwards(id)(t, s) <= phi(t) {
      ForwardsStep(t, s, id);
    }
    RunPotential(Next, inv, Forwards(id), phi, net, steps);
    SubsetIsSmaller(Unaware(net, id), net.seen.Keys);
  }

  /** Each forward costs one unit of TTL, and a forwarded message still has one. */
  ghost predicate ChainsShort(net: Network) {
    forall f :: f in net.inFlight ==> f.msg.ttl + f.hops == f.startTtl && (f.hops > 0 ==> f.msg.ttl >= 1)
  }

  lemma ChainsStep(net: Network, s: Step)
    requires ChainsShort(net)
    ensures ChainsShort(Next(net, s))
  {
    var r := Next(net, s);
    forall f | f in r.inFlight ensures f.msg.ttl + f.hops == f.startTtl && (f.hops > 0 ==> f.msg.ttl >= 1) {
      if f !in net.inFlight && s.Arrive? {
        assert net.inFlight[s.i] in net.inFlight;
        assert f in Onward(net.inFlight[s.i], DecisionAt(net, s));
      }
    }
  }

  /** Every forwarding chain is shorter than the TTL its message set out with. */
  lemma ChainsBounded(net: Network, steps: seq<Step>, f: Flight)
    requires net.inFlight == []
    requires f in Run(Next, net, steps).inFlight && f.hops > 0
    ensures f.hops < f.startTtl
  {
    forall t, s | ChainsShort(t) ensures ChainsShort(Next(t, s)) {
      ChainsStep(t, s);
    }
    RunInvariant(Next, ChainsShort, net, steps);
  }

  // ----- termination -----

  /** How often a message can still be handled, itself and all it turns into. */
  function Life(f: Flight): nat {
    if f.msg.ttl < 1 then 1 else f.msg.ttl
  }

  function Energy(fs: seq<Flight>): nat {
    if fs == [] then 0 else Life(fs[0]) + Energy(fs[1..])
  }

  lemma {:induction false} EnergyAppend(a: seq<Flight>, b: seq<Flight>)
    ensures Energy(a + b) == Energy(a) + Energy(b)
  {
    if a == [] {
      assert a + b == b;
    } else {
      assert (a + b)[1..] == a[1..] + b;
      EnergyAppend(a[1..], b);
    }
  }

  lemma {:induction false} EnergyWithout(fs: seq<Flight>, i: nat)
    requires i < |fs|
    ensures Energy(Without(fs, i)) + Life(fs[i]) == Energy(fs)
  {
    if i == 0 {
      assert Without(fs, 0) == fs[1..];
    } else {
      EnergyWithout(fs[1..], i - 1);
      assert Without(fs, i)[1..] == Without(fs[1..], i - 1);
    }
  }

  ghost function Handled(): (Network, Step) -> nat {
    (net: Network, s: Step) => if Handles(net, s) then 1 else 0
  }

  lemma HandlingSpendsEnergy(net: Network, s: Step)
    requires s.Arrive? || s.Lose?
    ensures Energy(Next(net, s).inFlight) + Handled()(net, s) <= Energy(net.inFlight)
  {
    if s.i < |net.inFlight| {
      EnergyWithout(net.inFlight, s.i);
      if Handles(net, s) {
        var f := net.inFlight[s.i];
        var onward := Onward(f, DecisionAt(net, s));
        EnergyAppend(Without(net.inFlight, s.i), onward);
        assert onward != [] ==> onward[1..] == [];
      }
    }
  }

  /** Without repetition or new messages every run handles at most the sum of the TTLs in flight (a
      message with none left counting as one), however the tables change: it comes to rest. */
  lemma {:induction false} ComesToRest(net: Network, steps: seq<Step>)
    requires forall s :: s in steps ==> s.Arrive? || s.Lose?
    ensures Total(Next, Handled(), net, steps) + Energy(Run(Next, net, steps).inFlight) <= Energy(net.inFlight)
    decreases |steps|
  {
    if steps != [] {
      HandlingSpendsEnergy(net, steps[0]);
      ComesToRest(Next(net, steps[0]), steps[1..]);
    }
  }

  // ----- exact reach -----

  function SeenAt(seen: map<string, set<string>>, node: string): set<string> {
    if node in seen then seen[node] else {}
  }

  /** Follow one message from node to node until a router no longer forwards it. */
  function Journey(tables: string -> Tables, seen: map<string, set<string>>, at: string, m: RoutedMessage): Decision
    decreases m.ttl
  {
    var d := Decide(at, tables(at), SeenAt(seen, at), m);
    if d.Forward?
    then Journey(tables, seen[at := SeenAt(seen, at) + {m.msgId}], d.nextHop, d.forwarded)
    else d
  }

  /** `dist` counts the hops left to `dest`, and every next hop takes one off and is admitted. */
  ghost predicate Converges(tables: string -> Tables, dist: string -> nat, dest: string, within: nat) {
    && (forall n :: dist(n) == 0 <==> n == dest)
    && forall n :: 0 < dist(n) <= within ==>
         var nh := tables(n).nextHop(dest);
         nh.Some? && dist(nh.value) == dist(n) - 1 && tables(n).isRoutable(nh.value)
  }

  /** Where next hops lead one step closer each time, an unseen message at distance d with TTL t arrives
      with its payload unchanged exactly when d = 0 or d < t, and otherwise runs out of TTL. */
  lemma {:induction false} ExactReach(tables: string -> Tables, dist: string -> nat, seen: map<string, set<string>>,
                                      at: string, m: RoutedMessage)
    requires Converges(tables, dist, m.dest, dist(at))
    requires forall n :: dist(n) <= dist(at) ==> m.msgId !in SeenAt(seen, n)
    ensures Journey(tables, seen, at, m) ==
      if dist(at) == 0 || dist(at) < m.ttl then Deliver(m.payload) else Drop(TtlExhausted)
    decreases dist(at)
  {
    var d := Decide(at, tables(at), SeenAt(seen, at), m);
    if d.Forward? {
      ExactReach(tables, dist, seen[at := SeenAt(seen, at) + {m.msgId}], d.nextHop, d.forwarded);
    }
  }

  // ----- a journey is a run of the network -----

  /** The arrivals that carry the last message in flight, behind `rest` others, as far as it goes. */
  function Arrivals(tables: string -> Tables, seen: map<string, set<string>>, rest: nat, at: string, m: RoutedMessage)
    : (steps: seq<Step>)
    ensures steps != [] && forall s :: s in steps ==> s.Arrive?
    decreases m.ttl
  {
    var d := Decide(at, tables(at), SeenAt(seen, at), m);
    [Arrive(rest, tables(at))] + if d.Forward?
    then Arrivals(tables, seen[at := SeenAt(seen, at) + {m.msgId}], rest, d.nextHop, d.forwarded)
    else []
  }

  /** Every node the journey comes to is a node of the network. */
  ghost predicate StaysInside(tables: string -> Tables, seen: map<string, set<string>>, at: string, m: RoutedMessage)
    decreases m.ttl
  {
    at in seen &&
      var d := Decide(at, tables(at), SeenAt(seen, at), m);
      d.Forward? ==> StaysInside(tables, seen[at := SeenAt(seen, at) + {m.msgId}], d.nextHop, d.forwarded)
  }

  /** The decision the run's last step makes. */
  ghost predicate EndsWith(net: Network, steps: seq<Step>, d: Decision) {
    && steps != []
    && Handles(Run(Next, net, steps[..|steps| - 1]), steps[|steps| - 1])
    && DecisionAt(Run(Next, net, steps[..|steps| - 1]), steps[|steps| - 1]) == d
  }

  lemma EndsWithCons(net: Network, steps: seq<Step>, d: Decision)
    requires |steps| > 1 && EndsWith(Next(net, steps[0]), steps[1..], d)
    ensures EndsWith(net, steps, d)
  {
    hide Next, Handles, DecisionAt;
    var init := steps[..|steps| - 1];
    assert init[1..] == steps[1..][..|steps| - 2];
    assert steps[1..][|steps| - 2] == steps[|steps| - 1];
  }

  lemma LastArrives(net: Network, rest: seq<Flight>, f: Flight, tables: Tables)
    requires net.inFlight == rest + [f] && f.at in net.seen
    ensures var s := Arrive(|rest|, tables);
      && Handles(net, s) && DecisionAt(net, s) == Decide(f.at, tables, net.seen[f.at], f.msg)
      && Next(net, s).inFlight == rest + Onward(f, DecisionAt(net, s))
      && Next(net, s).seen == net.seen[f.at := net.seen[f.at] + {f.msg.msgId}]
  {
    hide Decide;
    assert Without(net.inFlight, |rest|) == rest;
  }

  /** Following one message is running the network: its arrivals, one after another, end with the decision the
      journey ends with, and leave every other message in flight where it was. */
  lemma {:induction false} JourneyIsRun(tables: string -> Tables, net: Network, rest: seq<Flight>, f: Flight)
    requires net.inFlight == rest + [f] && StaysInside(tables, net.seen, f.at, f.msg)
    ensures var steps := Arrivals(tables, net.seen, |rest|, f.at, f.msg);
      EndsWith(net, steps, Journey(tables, net.seen, f.at, f.msg)) && Run(Next, net, steps).inFlight == rest
    decreases f.msg.ttl
  {
    hide Next, Handles, DecisionAt;
    var steps := Arrivals(tables, net.seen, |rest|, f.at, f.msg);
    var d := Decide(f.at, tables(f.at), net.seen[f.at], f.msg);
    LastArrives(net, rest, f, tables(f.at));
    var next := Next(net, steps[0]);
    if d.Forward? {
      var g := Flight(d.nextHop, d.forwarded, f.hops + 1, f.startTtl);
      JourneyIsRun(tables, next, rest, g);
      assert steps[1..] == Arrivals(tables, next.seen, |rest|, g.at, g.msg);
      EndsWithCons(net, steps, Journey(tables, net.seen, f.at, f.msg));
    } else {
      assert steps == [Arrive(|rest|, tables(f.at))];
      assert steps[..0] == [] && steps[1..] == [];
      assert rest + [] == rest;
    }
  }

  lemma {:induction false} ConvergingStaysInside(
    tables: string -> Tables, dist: string -> nat, seen: map<string, set<string>>, at: string, m: RoutedMessage)
    requires Converges(tables, dist, m.dest, dist(at))
    requires forall n :: dist(n) <= dist(at) ==> n in seen
    ensures StaysInside(tables, seen, at, m)
    decreases dist(at)
  {
    var d := Decide(at, tables(at), SeenAt(seen, at), m);
    if d.Forward? {
      ConvergingStaysInside(tables, dist, seen[at := SeenAt(seen, at) + {m.msgId}], d.nextHop, d.forwarded);
    }
  }

  /** So a message that nothing else moves beside, to a node at distance d with TTL t, its id unseen on the way,
      has a run that delivers it with its payload exactly when d = 0 or d < t, and else drops it as out of TTL. */
  lemma {:induction false} ReachAlone(
    tables: string -> Tables, dist: string -> nat, net: Network, rest: seq<Flight>, f: Flight)
    requires net.inFlight == rest + [f] && Converges(tables, dist, f.msg.dest, dist(f.at))
    requires forall n :: dist(n) <= dist(f.at) ==> n in net.seen && f.msg.msgId !in net.seen[n]
    ensures var steps := Arrivals(tables, net.seen, |rest|, f.at, f.msg);
      EndsWith(net, steps, Verdict(dist, f)) && Run(Next, net, steps).inFlight == rest
  {
    hide EndsWith;
    ExactReach(tables, dist, net.seen, f.at, f.msg);
    ConvergingStaysInside(tables, dist, net.seen, f.at, f.msg);
    JourneyIsRun(tables, net, rest, f);
  }

  // ----- reach among other traffic -----

  /** What is to become of a message: delivered where the distance is below the TTL, or none is left. */
  function Verdict(dist: string -> nat, f: Flight): Decision {
    if dist(f.at) == 0 || dist(f.at) < f.msg.ttl then Deliver(f.msg.payload) else Drop(TtlExhausted)
  }

  /** The messages in flight under one id. */
  function Under(fs: seq<Flight>, id: string): seq<Flight> {
    if fs == [] then []
    else if fs[0].msg.msgId == id then [fs[0]] + Under(fs[1..], id)
    else Under(fs[1..], id)
  }

  lemma {:induction false} UnderAppend(a: seq<Flight>, b: seq<Flight>, id: string)
    ensures Under(a + b, id) == Under(a, id) + Under(b, id)
  {
    if a == [] {
      assert a + b == b;
    } else {
      assert (a + b)[1..] == a[1..] + b;
      UnderAppend(a[1..], b, id);
      var x, y := Under(a[1..], id), Under(b, id);
      assert ([a[0]] + x) + y == [a[0]] + (x + y);
    }
  }

  lemma UnderOne(f: Flight, id: string)
    ensures Under([f], id) == if f.msg.msgId == id then [f] else []
  {
    assert [f][1..] == [];
  }

  lemma UnderSplit(fs: seq<Flight>, i: nat, id: string)
    requires i < |fs|
    ensures var a, b := Under(fs[..i], id), Under(fs[i + 1..], id);
      && Under(fs, id) == a + (if fs[i].msg.msgId == id then [fs[i]] + b else b)
      && Under(Without(fs, i), id) == a + b
  {
    hide Under;
    var tail := [fs[i]] + fs[i + 1..];
    assert fs == fs[..i] + tail;
    UnderAppend(fs[..i], tail, id);
    UnderAppend([fs[i]], fs[i + 1..], id);
    UnderAppend(fs[..i], fs[i + 1..], id);
    UnderOne(fs[i], id);
    assert [] + Under(fs[i + 1..], id) == Under(fs[i + 1..], id);
  }

  lemma UnderWithout(fs: seq<Flight>, i: nat, id: string)
    requires i < |fs|
    ensures fs[i].msg.msgId != id ==> Under(Without(fs, i), id) == Under(fs, id)
    ensures fs[i].msg.msgId == id && |Under(fs, id)| <= 1 ==>
      Under(fs, id) == [fs[i]] && Under(Without(fs, i), id) == []
  {
    hide Under, Without;
    UnderSplit(fs, i, id);
    var a, b := Under(fs[..i], id), Under(fs[i + 1..], id);
    if fs[i].msg.msgId == id {
      assert |a + ([fs[i]] + b)| == |a| + 1 + |b|;
    }
  }

  /** `tables` leads one step closer from `node`, over an admitted peer. */
  ghost predicate LeadsCloser(tables: Tables, dist: string -> nat, dest: string, node: string) {
    dist(node) > 0 ==>
      var nh := tables.nextHop(dest);
      nh.Some? && dist(nh.value) == dist(node) - 1 && tables.isRoutable(nh.value)
  }

  /** The step neither loses nor repeats the message `id`, brings no other with its id, and lets it arrive only
      where the tables lead closer; it may do anything else. */
  ghost predicate Undisturbed(net: Network, s: Step, id: string, dest: string, dist: string -> nat) {
    match s
    case Arrive(i, tables) =>
      Handles(net, s) && net.inFlight[i].msg.msgId == id ==> LeadsCloser(tables, dist, dest, net.inFlight[i].at)
    case Lose(i) => i < |net.inFlight| ==> net.inFlight[i].msg.msgId != id
    case Repeat(i) => i < |net.inFlight| ==> net.inFlight[i].msg.msgId != id
    case Inject(_, msg) => msg.msgId != id
  }

  ghost predicate UndisturbedRun(net: Network, steps: seq<Step>, id: string, dest: string, dist: string -> nat)
    decreases |steps|
  {
    steps != [] ==>
      Undisturbed(net, steps[0], id, dest, dist) && UndisturbedRun(Next(net, steps[0]), steps[1..], id, dest, dist)
  }

  /** The step handles the message `id` and does not forward it. */
  predicate Settles(net: Network, s: Step, id: string) {
    Handles(net, s) && net.inFlight[s.i].msg.msgId == id && !DecisionAt(net, s).Forward?
  }

  /** The first decision in the run that does not forward `id`, if there is one. */
  function Settled(net: Network, steps: seq<Step>, id: string): Option<Decision>
    decreases |steps|
  {
    if steps == [] then None
    else if Settles(net, steps[0], id) then Some(DecisionAt(net, steps[0]))
    else Settled(Next(net, steps[0]), steps[1..], id)
  }

  /** `f` is the only message under its id, no node from its own distance down has seen it, and `verdict` is what
      is to become of it. */
  ghost predicate Travels(net: Network, f: Flight, id: string, dest: string, dist: string -> nat, verdict: Decision) {
    && Under(net.inFlight, id) == [f] && f.msg.msgId == id && f.msg.dest == dest
    && (forall n :: n in net.seen && dist(n) <= dist(f.at) ==> id !in net.seen[n])
    && Verdict(dist, f) == verdict
  }

  lemma OtherStep(net: Network, s: Step, f: Flight, id: string, dest: string, dist: string -> nat, verdict: Decision)
    requires Travels(net, f, id, dest, dist, verdict) && Undisturbed(net, s, id, dest, dist)
    requires Handles(net, s) ==> net.inFlight[s.i].msg.msgId != id
    ensures Travels(Next(net, s), f, id, dest, dist, verdict)
  {
    hide Decide, Verdict;
    match s
    case Arrive(i, _) =>
      if Handles(net, s) {
        var onward := Onward(net.inFlight[i], DecisionAt(net, s));
        UnderWithout(net.inFlight, i, id);
        UnderAppend(Without(net.inFlight, i), onward, id);
        OnwardKeepsId(net, s);
        if onward != [] {
          UnderOne(onward[0], id);
        }
      }
    case Lose(i) =>
      if i < |net.inFlight| {
        UnderWithout(net.inFlight, i, id);
      }
    case Repeat(i) =>
      if i < |net.inFlight| {
        UnderAppend(net.inFlight, [net.inFlight[i]], id);
        UnderOne(net.inFlight[i], id);
      }
    case Inject(at, msg) =>
      UnderAppend(net.inFlight, [Flight(at, msg, 0, msg.ttl)], id);
      UnderOne(Flight(at, msg, 0, msg.ttl), id);
  }

  lemma OnwardKeepsId(net: Network, s: Step)
    requires Handles(net, s)
    ensures var f := net.inFlight[s.i];
      var onward := Onward(f, DecisionAt(net, s));
      |onward| <= 1 && (onward != [] ==> onward[0].msg.msgId == f.msg.msgId)
  {}

  lemma OwnDecision(f: Flight, tables: Tables, seen: set<string>, dest: string, dist: string -> nat)
    requires f.msg.dest == dest && f.msg.msgId !in seen && LeadsCloser(tables, dist, dest, f.at)
    requires forall n :: dist(n) == 0 <==> n == dest
    ensures var d := Decide(f.at, tables, seen, f.msg);
      if !d.Forward? then d == Verdict(dist, f)
      else
        && dist(f.at) > 0 && dist(d.nextHop) == dist(f.at) - 1 && d.forwarded == f.msg.(ttl := f.msg.ttl - 1)
        && Verdict(dist, Flight(d.nextHop, d.forwarded, f.hops + 1, f.startTtl)) == Verdict(dist, f)
  {}

  /** The message's own arrival: it settles as it is to, or moves one closer with one TTL less. */
  lemma OwnStep(net: Network, s: Step, f: Flight, id: string, dest: string, dist: string -> nat, verdict: Decision)
    requires Travels(net, f, id, dest, dist, verdict) && Undisturbed(net, s, id, dest, dist)
    requires forall n :: dist(n) == 0 <==> n == dest
    requires Handles(net, s) && net.inFlight[s.i].msg.msgId == id
    ensures Settles(net, s, id) ==> DecisionAt(net, s) == verdict && Under(Next(net, s).inFlight, id) == []
    ensures !Settles(net, s, id) ==>
      var d := DecisionAt(net, s);
      Travels(Next(net, s), Flight(d.nextHop, d.forwarded, f.hops + 1, f.startTtl), id, dest, dist, verdict)
  {
    hide Decide, Verdict, LeadsCloser, Under, Without;
    UnderWithout(net.inFlight, s.i, id);
    assert net.inFlight[s.i] == f;
    OwnDecision(f, s.tables, net.seen[f.at], dest, dist);
    var onward := Onward(f, DecisionAt(net, s));
    UnderAppend(Without(net.inFlight, s.i), onward, id);
    if onward == [] {
      assert Without(net.inFlight, s.i) + [] == Without(net.inFlight, s.i);
    } else {
      UnderOne(onward[0], id);
    }
  }

  lemma GoneStep(net: Network, s: Step, id: string, dest: string, dist: string -> nat)
    requires Under(net.inFlight, id) == [] && Undisturbed(net, s, id, dest, dist)
    ensures Under(Next(net, s).inFlight, id) == [] && !Settles(net, s, id)
  {
    hide Decide;
    if (s.Arrive? || s.Lose? || s.Repeat?) && s.i < |net.inFlight| {
      UnderWithout(net.inFlight, s.i, id);
      UnderAppend(net.inFlight, [net.inFlight[s.i]], id);
      UnderOne(net.inFlight[s.i], id);
      if Handles(net, s) {
        var onward := Onward(net.inFlight[s.i], DecisionAt(net, s));
        OnwardKeepsId(net, s);
        UnderAppend(Without(net.inFlight, s.i), onward, id);
        if onward != [] {
          UnderOne(onward[0], id);
        }
      }
    } else if s.Inject? {
      UnderAppend(net.inFlight, [Flight(s.at, s.msg, 0, s.msg.ttl)], id);
      UnderOne(Flight(s.at, s.msg, 0, s.msg.ttl), id);
    }
  }

  lemma {:induction false} GoneStays(net: Network, steps: seq<Step>, id: string, dest: string, dist: string -> nat)
    requires Under(net.inFlight, id) == [] && UndisturbedRun(net, steps, id, dest, dist)
    ensures Under(Run(Next, net, steps).inFlight, id) == []
    decreases |steps|
  {
    hide Next, Undisturbed, Under;
    if steps != [] {
      GoneStep(net, steps[0], id, dest, dist);
      GoneStays(Next(net, steps[0]), steps[1..], id, dest, dist);
    }
  }

  /** In every run, whatever else is sent, lost, repeated, reordered or routed by whatever tables, a message that is
      itself neither lost nor repeated and that meets tables leading closer is still in flight, or has settled:
      delivered with its payload exactly when at first d = 0 or d < t, and else dropped as out of TTL. */
  lemma {:induction false} ReachInNetwork(
    net: Network, steps: seq<Step>, f: Flight, id: string, dest: string, dist: string -> nat, verdict: Decision)
    requires Travels(net, f, id, dest, dist, verdict) && UndisturbedRun(net, steps, id, dest, dist)
    requires forall n :: dist(n) == 0 <==> n == dest
    ensures var left := Under(Run(Next, net, steps).inFlight, id);
      Settled(net, steps, id) == if left == [] then Some(verdict) else None
    decreases |steps|
  {
    hide Next, Undisturbed, Travels, Under, Decide, Verdict, Settles;
    if steps == [] {
      TravelsInFlight(net, f, id, dest, dist, verdict);
    } else {
      var s, next := steps[0], Next(net, steps[0]);
      if Handles(net, s) && net.inFlight[s.i].msg.msgId == id {
        OwnStep(net, s, f, id, dest, dist, verdict);
        if Settles(net, s, id) {
          GoneStays(next, steps[1..], id, dest, dist);
        } else {
          ForwardsUnsettled(net, s, id);
          var d := DecisionAt(net, s);
          var g := Flight(d.nextHop, d.forwarded, f.hops + 1, f.startTtl);
          ReachInNetwork(next, steps[1..], g, id, dest, dist, verdict);
        }
      } else {
        NotItsArrival(net, s, id);
        OtherStep(net, s, f, id, dest, dist, verdict);
        ReachInNetwork(next, steps[1..], f, id, dest, dist, verdict);
      }
    }
  }

  lemma TravelsInFlight(net: Network, f: Flight, id: string, dest: string, dist: string -> nat, verdict: Decision)
    requires Travels(net, f, id, dest, dist, verdict)
    ensures Under(net.inFlight, id) != []
  {}

  lemma NotItsArrival(net: Network, s: Step, id: string)
    ensures Settles(net, s, id) ==> Handles(net, s) && net.inFlight[s.i].msg.msgId == id
  {}

  lemma ForwardsUnsettled(net: Network, s: Step, id: string)
    requires Handles(net, s) && net.inFlight[s.i].msg.msgId == id && !Settles(net, s, id)
    ensures DecisionAt(net, s).Forward?
  {}
}
