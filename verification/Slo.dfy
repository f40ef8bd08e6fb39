/** Revocation convergence: who has acknowledged a broadcast, and whether enough did within its deadline.
    Times and spans are whole microseconds; the coverage target is an exact real. */
module Slo {
  import opened Common

  datatype Broadcast = Broadcast(jti: string, issuedAt: int, fastPath: bool, expected: set<string>)

  datatype Policy = Policy(target: real, normalDeadline: int, fastDeadline: int)

  datatype Status = Meeting | Pending | Missed

  datatype Snapshot = Snapshot(
    received: nat, expected: nat, timeToTarget: Option<int>, elapsed: int, deadline: int, status: Status)

  datatype Error = AlreadyRegistered | NotRegistered | NodeNotExpected

  type Acks = map<string, int>

  ghost predicate ValidPolicy(p: Policy) {
    0.0 < p.target <= 1.0 && p.normalDeadline > 0 && p.fastDeadline > 0
  }

  function DeadlineFor(p: Policy, b: Broadcast): int {
    if b.fastPath then p.fastDeadline else p.normalDeadline
  }

  // ----- acknowledgements -----

  /** The earliest acknowledgement of each node is the one kept. */
  function Record(acks: Acks, node: string, at: int): Acks {
    if node !in acks || at < acks[node] then acks[node := at] else acks
  }

  datatype Ack = Ack(node: string, at: int)

  function RecordAll(acks: Acks, events: seq<Ack>): Acks {
    if events == [] then acks
    else Record(RecordAll(acks, events[..|events| - 1]), events[|events| - 1].node, events[|events| - 1].at)
  }

  /** However acknowledgements arrive, each node is left with its earliest one. */
  lemma {:induction false} EarliestIsKept(events: seq<Ack>, node: string)
    ensures var acks := RecordAll(map[], events);
      node in acks <==> exists e :: e in events && e.node == node
    ensures var acks := RecordAll(map[], events);
      node in acks ==>
        Ack(node, acks[node]) in events && forall e :: e in events && e.node == node ==> acks[node] <= e.at
  {
    if events != [] {
      var init, last := events[..|events| - 1], events[|events| - 1];
      EarliestIsKept(init, node);
      assert events == init + [last];
      assert forall e :: e in events <==> e in init || e == last;
      if last.node == node {
        assert Ack(node, last.at) == last;
      }
    }
  }

  class ConvergenceTracker {
    var broadcasts: map<string, Broadcast>
    var acks: map<string, Acks>

    ghost predicate Valid()
      reads this
    {
      && broadcasts.Keys == acks.Keys
      && forall j :: j in broadcasts ==> broadcasts[j].expected != {} && acks[j].Keys <= broadcasts[j].expected
    }

    constructor ()
      ensures Valid() && broadcasts == map[] && acks == map[]
    {
      broadcasts := map[];
      acks := map[];
    }

    method RegisterBroadcast(b: Broadcast) returns (r: Result<(), Error>)
      requires Valid() && b.expected != {}
      modifies this
      ensures Valid()
      ensures r == if b.jti in old(broadcasts) then Err(AlreadyRegistered) else Ok(())
      ensures r.Err? ==> broadcasts == old(broadcasts) && acks == old(acks)
      ensures r.Ok? ==> broadcasts == old(broadcasts)[b.jti := b] && acks == old(acks)[b.jti := map[]]
    {
      if b.jti in broadcasts {
        return Err(AlreadyRegistered);
      }
      broadcasts := broadcasts[b.jti := b];
      acks := acks[b.jti := map[]];
      r := Ok(());
    }

    method RecordAck(jti: string, node: string, at: int) returns (r: Result<(), Error>)
      requires Valid()
      modifies this`acks
      ensures Valid()
      ensures jti !in broadcasts ==> r == Err(NotRegistered)
      ensures jti in broadcasts && node !in broadcasts[jti].expected ==> r == Err(NodeNotExpected)
      ensures jti in broadcasts && node in broadcasts[jti].expected ==> r == Ok(())
      ensures r.Err? ==> acks == old(acks)
      ensures r.Ok? ==> acks == old(acks)[jti := Record(old(acks)[jti], node, at)]
    {
      if jti !in broadcasts {
        return Err(NotRegistered);
      }
      if node !in broadcasts[jti].expected {
        return Err(NodeNotExpected);
      }
      var known := acks[jti];
      if node !in known || at < known[node] {
        acks := acks[jti := known[node := at]];
      } else {
        assert acks[jti := known] == acks;
      }
      r := Ok(());
    }

    function AcksFor(jti: string): Acks
      reads this
    {
      if jti in acks then acks[jti] else map[]
    }
  }

  // ----- sorting acknowledgement times -----

  ghost predicate Ascending(s: seq<int>) {
    forall i, j :: 0 <= i < j < |s| ==> s[i] <= s[j]
  }

  function Insert(s: seq<int>, x: int): seq<int> {
    if s == [] || s[|s| - 1] <= x then s + [x]
    else Insert(s[..|s| - 1], x) + [s[|s| - 1]]
  }

  function Sorted(s: seq<int>): seq<int> {
    if s == [] then [] else Insert(Sorted(s[..|s| - 1]), s[|s| - 1])
  }

  function UpTo(bound: int): int -> bool {
    t => t <= bound
  }

  function CountUpTo(s: seq<int>, bound: int): nat {
    CountIf(s, UpTo(bound))
  }

  lemma CountSnoc(s: seq<int>, x: int, bound: int)
    ensures CountUpTo(s + [x], bound) == CountUpTo(s, bound) + if x <= bound then 1 else 0
  {
    CountIfSnoc(s, x, UpTo(bound));
  }

  lemma {:induction false} InsertAscends(s: seq<int>, x: int)
    requires Ascending(s)
    ensures Ascending(Insert(s, x)) && |Insert(s, x)| == |s| + 1
    ensures forall y :: y in Insert(s, x) ==> y in s || y == x
  {
    if s != [] && s[|s| - 1] > x {
      var init, last := s[..|s| - 1], s[|s| - 1];
      InsertAscends(init, x);
      forall i | 0 <= i < |Insert(init, x)| ensures Insert(init, x)[i] <= last {
        assert Insert(init, x)[i] in Insert(init, x);
      }
    }
  }

  lemma {:induction false} InsertCounts(s: seq<int>, x: int, bound: int)
    ensures CountUpTo(Insert(s, x), bound) == CountUpTo(s + [x], bound)
  {
    CountSnoc(s, x, bound);
    if s != [] && s[|s| - 1] > x {
      var init, last := s[..|s| - 1], s[|s| - 1];
      InsertCounts(init, x, bound);
      CountSnoc(Insert(init, x), last, bound);
      CountSnoc(init, x, bound);
    }
  }

  lemma {:induction false} SortedFacts(s: seq<int>, bound: int)
    ensures Ascending(Sorted(s)) && |Sorted(s)| == |s|
    ensures CountUpTo(Sorted(s), bound) == CountUpTo(s, bound)
  {
    if s != [] {
      var init, last := s[..|s| - 1], s[|s| - 1];
      SortedFacts(init, bound);
      InsertAscends(Sorted(init), last);
      InsertCounts(Sorted(init), last, bound);
      CountSnoc(Sorted(init), last, bound);
    }
  }

  /** The k-th smallest is within the bound exactly when at least k are. */
  lemma {:induction false} OrderStatistic(s: seq<int>, k: nat, bound: int)
    requires Ascending(s) && 1 <= k <= |s|
    ensures s[k - 1] <= bound <==> CountUpTo(s, bound) >= k
  {
    var init := s[..|s| - 1];
    if k < |s| {
      OrderStatistic(init, k, bound);
      assert init[k - 1] == s[k - 1];
    } else {
      CountIfAtMost(init, UpTo(bound));
      if s[k - 1] <= bound {
        CountAll(init, bound);
      }
    }
  }

  lemma {:induction false} CountAll(s: seq<int>, bound: int)
    requires forall i :: 0 <= i < |s| ==> s[i] <= bound
    ensures CountUpTo(s, bound) == |s|
  {
    if s != [] {
      CountAll(s[..|s| - 1], bound);
    }
  }

  // ----- how many acknowledgements are enough -----

  function Ceiling(x: real): int {
    -(-x).Floor
  }

  function Goal(target: real, expected: nat): real {
    target * expected as real
  }

  function Coverage(received: nat, expected: nat): real
    requires expected > 0
  {
    received as real / expected as real
  }

  function Needed(target: real, expected: nat): nat {
    var ceiling := Ceiling(Goal(target, expected));
    if ceiling < 1 then 1 else ceiling
  }

  lemma CeilingIsLeast(x: real, k: int)
    ensures k >= Ceiling(x) <==> k as real >= x
  {
    var down := (-x).Floor;
    assert down as real <= -x < (down + 1) as real;
  }

  lemma ScaleUp(a: real, b: real, size: real)
    requires a <= b && size > 0.0
    ensures a * size <= b * size
    ensures a < b ==> a * size < b * size
  {}

  lemma GoalBounds(target: real, expected: nat)
    requires 0.0 < target <= 1.0 && expected > 0
    ensures 0.0 < Goal(target, expected) <= expected as real
  {
    ScaleUp(0.0, target, expected as real);
    ScaleUp(target, 1.0, expected as real);
  }

  lemma CoverageReaches(received: nat, expected: nat, target: real)
    requires expected > 0
    ensures Coverage(received, expected) >= target <==> received as real >= Goal(target, expected)
  {
    var size := expected as real;
    var coverage := Coverage(received, expected);
    assert coverage * size == received as real;
    if coverage >= target {
      ScaleUp(target, coverage, size);
    } else {
      ScaleUp(coverage, target, size);
    }
  }

  /** A count reaches the needed one exactly when the coverage it makes reaches the target. */
  lemma NeededIsLeast(target: real, expected: nat, k: nat)
    requires 0.0 < target <= 1.0 && expected > 0
    ensures k >= Needed(target, expected) <==> Coverage(k, expected) >= target
    ensures k >= Needed(target, expected) <==> k as real >= target * expected as real
    ensures 1 <= Needed(target, expected) <= expected
  {
    hide Ceiling, Coverage;
    GoalBounds(target, expected);
    CeilingIsLeast(Goal(target, expected), k);
    CeilingIsLeast(Goal(target, expected), expected);
    CeilingIsLeast(Goal(target, expected), 0);
    CoverageReaches(k, expected, target);
  }

  // ----- evaluation -----

  /** The expected nodes whose kept acknowledgement is no later than `limit`. */
  ghost function AckedBy(acks: Acks, expected: set<string>, limit: int): set<string> {
    set n | n in expected && n in acks && acks[n] <= limit
  }

  ghost function Acked(acks: Acks, expected: set<string>): set<string> {
    set n | n in expected && n in acks
  }

  ghost predicate Meets(acks: Acks, b: Broadcast, p: Policy) {
    var deadline := if b.fastPath then p.fastDeadline else p.normalDeadline;
    |AckedBy(acks, b.expected, b.issuedAt + deadline)| >= Needed(p.target, |b.expected|)
  }

  method AckTimes(acks: Acks, nodes: set<string>) returns (times: seq<int>)
    ensures |times| == |Acked(acks, nodes)|
    ensures forall bound :: CountUpTo(times, bound) == |AckedBy(acks, nodes, bound)|
  {
    times := [];
    var todo := nodes;
    while todo != {}
      invariant todo <= nodes
      invariant |times| == |Acked(acks, nodes - todo)|
      invariant forall bound :: CountUpTo(times, bound) == |AckedBy(acks, nodes - todo, bound)|
      decreases |todo|
    {
      var node :| node in todo;
      ghost var done := nodes - todo;
      assert nodes - (todo - {node}) == done + {node};
      AckedOneMore(acks, done, node);
      todo := todo - {node};
      if node in acks {
        forall bound ensures CountUpTo(times + [acks[node]], bound) == |AckedBy(acks, done + {node}, bound)| {
          CountSnoc(times, acks[node], bound);
          AckedByOneMore(acks, done, node, bound);
        }
        times := times + [acks[node]];
      } else {
        forall bound ensures CountUpTo(times, bound) == |AckedBy(acks, done + {node}, bound)| {
          AckedByOneMore(acks, done, node, bound);
        }
      }
    }
    assert nodes - todo == nodes;
  }

  lemma AckedOneMore(acks: Acks, done: set<string>, node: string)
    requires node !in done
    ensures |Acked(acks, done + {node})| == |Acked(acks, done)| + if node in acks then 1 else 0
  {
    if node in acks {
      assert Acked(acks, done + {node}) == Acked(acks, done) + {node};
    } else {
      assert Acked(acks, done + {node}) == Acked(acks, done);
    }
  }

  lemma AckedByOneMore(acks: Acks, done: set<string>, node: string, limit: int)
    requires node !in done
    ensures var inTime := node in acks && acks[node] <= limit;
      |AckedBy(acks, done + {node}, limit)| == |AckedBy(acks, done, limit)| + if inTime then 1 else 0
  {
    if node in acks && acks[node] <= limit {
      assert AckedBy(acks, done + {node}, limit) == AckedBy(acks, done, limit) + {node};
    } else {
      assert AckedBy(acks, done + {node}, limit) == AckedBy(acks, done, limit);
    }
  }

  lemma AckedWithin(acks: Acks, expected: set<string>, limit: int)
    ensures |AckedBy(acks, expected, limit)| <= |Acked(acks, expected)| <= |expected|
  {
    SubsetIsSmaller(AckedBy(acks, expected, limit), Acked(acks, expected));
    SubsetIsSmaller(Acked(acks, expected), expected);
  }

  /** The status is decided by how many nodes acknowledged within the deadline; the time to target is the
      least time by which enough had. */
  method EvaluateSlo(tracker: ConvergenceTracker, jti: string, p: Policy, now: int)
    returns (r: Result<Snapshot, Error>)
    requires tracker.Valid() && ValidPolicy(p)
    ensures jti !in tracker.broadcasts ==> r == Err(NotRegistered)
    ensures jti in tracker.broadcasts ==>
      r.Ok? && Describes(r.value, tracker.acks[jti], tracker.broadcasts[jti], p, now)
  {
    hide Needed, Describes;
    if jti !in tracker.broadcasts {
      return Err(NotRegistered);
    }
    var b := tracker.broadcasts[jti];
    var acks := tracker.AcksFor(jti);
    var times := AckTimes(acks, b.expected);
    var received, size := |times|, |b.expected|;
    var deadline := DeadlineFor(p, b);
    var elapsed := now - b.issuedAt;
    var covered := Coverage(received, size) >= p.target;
    var timeToTarget: Option<int> := None;
    NeededIsLeast(p.target, size, received);
    if covered {
      var sorted := Sorted(times);
      var needed := Needed(p.target, size);
      SortedFacts(times, 0);
      if needed <= |sorted| {
        timeToTarget := Some(sorted[needed - 1] - b.issuedAt);
        forall limit ensures sorted[needed - 1] <= limit <==> |AckedBy(acks, b.expected, limit)| >= needed {
          SortedFacts(times, limit);
          OrderStatistic(sorted, needed, limit);
        }
      }
    }
    var status := Pending;
    if covered && timeToTarget.Some? {
      status := if timeToTarget.value <= deadline then Meeting else Missed;
    } else if elapsed > deadline {
      status := Missed;
    }
    r := Ok(Snapshot(received, size, timeToTarget, elapsed, deadline, status));
    AckedWithin(acks, b.expected, b.issuedAt + deadline);
    SnapshotDescribes(r.value, acks, b, p, now);
  }

  /** What a snapshot says of the acknowledgements it was taken over. */
  ghost predicate Describes(s: Snapshot, acks: Acks, b: Broadcast, p: Policy, now: int) {
    var needed := Needed(p.target, |b.expected|);
    && s.received == |Acked(acks, b.expected)| && s.expected == |b.expected|
    && s.deadline == (if b.fastPath then p.fastDeadline else p.normalDeadline) && s.elapsed == now - b.issuedAt
    && (s.status == Meeting <==> Meets(acks, b, p))
    && (s.status == Missed <==> !Meets(acks, b, p) && (s.received >= needed || s.elapsed > s.deadline))
    && (s.timeToTarget.Some? <==> s.received >= needed)
    && (s.timeToTarget.Some? ==> TargetReachedAt(acks, b, needed, s.timeToTarget.value))
  }

  /** `span` after the broadcast is the first time by which `needed` nodes had acknowledged. */
  ghost predicate TargetReachedAt(acks: Acks, b: Broadcast, needed: nat, span: int) {
    forall limit :: |AckedBy(acks, b.expected, limit)| >= needed <==> b.issuedAt + span <= limit
  }

  function StatusOf(timeToTarget: Option<int>, elapsed: int, deadline: int): Status {
    if timeToTarget.Some? then if timeToTarget.value <= deadline then Meeting else Missed
    else if elapsed > deadline then Missed
    else Pending
  }

  lemma SnapshotDescribes(s: Snapshot, acks: Acks, b: Broadcast, p: Policy, now: int)
    requires s.received == |Acked(acks, b.expected)| && s.expected == |b.expected|
    requires s.deadline == DeadlineFor(p, b) && s.elapsed == now - b.issuedAt
    requires |AckedBy(acks, b.expected, b.issuedAt + s.deadline)| <= s.received
    requires s.timeToTarget.Some? <==> s.received >= Needed(p.target, |b.expected|)
    requires s.timeToTarget.Some? ==> TargetReachedAt(acks, b, Needed(p.target, |b.expected|), s.timeToTarget.value)
    requires s.status == StatusOf(s.timeToTarget, s.elapsed, s.deadline)
    ensures Describes(s, acks, b, p, now)
  {
    hide Needed;
    if s.timeToTarget.Some? {
      var limit := b.issuedAt + s.deadline;
      var enough := |AckedBy(acks, b.expected, limit)| >= Needed(p.target, |b.expected|);
      assert enough <==> b.issuedAt + s.timeToTarget.value <= limit;
    }
  }

  // ----- further acknowledgements and the passage of time -----

  /** One more acknowledgement adds its node, if it is in time, and takes none away. */
  lemma RecordAdds(acks: Acks, expected: set<string>, node: string, at: int, limit: int)
    requires node in expected
    ensures var more := if at <= limit then {node} else {};
      AckedBy(Record(acks, node, at), expected, limit) == AckedBy(acks, expected, limit) + more
  {}

  /** It completes the target exactly when it is in time, from a node not yet counted, and one was missing. */
  lemma RecordMeets(acks: Acks, b: Broadcast, p: Policy, node: string, at: int)
    requires node in b.expected
    ensures var limit := b.issuedAt + DeadlineFor(p, b);
      var counted := AckedBy(acks, b.expected, limit);
      var completes := at <= limit && node !in counted && |counted| + 1 == Needed(p.target, |b.expected|);
      Meets(Record(acks, node, at), b, p) <==> Meets(acks, b, p) || completes
  {
    hide Needed;
    var limit := b.issuedAt + DeadlineFor(p, b);
    RecordAdds(acks, b.expected, node, at, limit);
    var counted := AckedBy(acks, b.expected, limit);
    if node in counted {
      assert counted + {node} == counted;
    }
  }

  /** Once met, the objective stays met whatever acknowledgements follow: the status depends on the clock
      only while it is not. */
  lemma {:induction false} MeetingIsStable(acks: Acks, b: Broadcast, p: Policy, events: seq<Ack>)
    requires Meets(acks, b, p)
    requires forall e :: e in events ==> e.node in b.expected
    ensures Meets(RecordAll(acks, events), b, p)
  {
    hide Needed, Meets, Record;
    if events != [] {
      var init, last := events[..|events| - 1], events[|events| - 1];
      MeetingIsStable(acks, b, p, init);
      RecordMeets(RecordAll(acks, init), b, p, last.node, last.at);
    }
  }

  /** With no further acknowledgement, time can only turn a pending broadcast into a missed one. */
  lemma TimeOnlyMisses(s: Snapshot, t: Snapshot, acks: Acks, b: Broadcast, p: Policy, now: int, later: int)
    requires now <= later && Describes(s, acks, b, p, now) && Describes(t, acks, b, p, later)
    ensures t.status != s.status ==>
      s.status == Pending && t.status == Missed && now <= b.issuedAt + s.deadline < later
  {}
}
