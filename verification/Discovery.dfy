/** Admission of discovery records: each workload key only ever fresher, and only so often. Times and the
    window are whole microseconds. */
module Discovery {
  import opened Windows

  datatype Record = Record(iss: string, kid: string, issuedAt: int)

  datatype Decision = Admitted | Rewound | RateLimited

  type Key = (string, string)

  function KeyOf(r: Record): Key {
    (r.iss, r.kid)
  }

  type Pins = map<Key, int>

  type Events = map<Key, seq<int>>

  // ----- freshness -----

  predicate Fresher(pins: Pins, r: Record) {
    KeyOf(r) in pins ==> r.issuedAt > pins[KeyOf(r)]
  }

  function Pinned(pins: Pins, r: Record): Pins {
    if Fresher(pins, r) then pins[KeyOf(r) := r.issuedAt] else pins
  }

  function Evicted(pins: Pins, cutoff: int): Pins {
    map k | k in pins && pins[k] >= cutoff :: pins[k]
  }

  lemma EvictedCount(pins: Pins, cutoff: int, stale: set<Key>)
    requires stale == set k | k in pins && pins[k] < cutoff
    ensures Evicted(pins, cutoff) == pins - stale
    ensures |stale| == |pins| - |Evicted(pins, cutoff)|
  {
    assert Evicted(pins, cutoff).Keys == pins.Keys - stale;
    assert |pins.Keys - stale| == |pins.Keys| - |stale|;
  }

  class FreshnessTracker {
    var highest: Pins

    constructor ()
      ensures highest == map[]
    {
      highest := map[];
    }

    method Check(r: Record) returns (d: Decision)
      ensures d == if Fresher(highest, r) then Admitted else Rewound
    {
      var key := KeyOf(r);
      if key in highest && r.issuedAt <= highest[key] {
        return Rewound;
      }
      d := Admitted;
    }

    method Commit(r: Record)
      modifies this
      ensures highest == Pinned(old(highest), r)
    {
      var key := KeyOf(r);
      if key !in highest || r.issuedAt > highest[key] {
        highest := highest[key := r.issuedAt];
      }
    }

    method EvictOlderThan(cutoff: int) returns (dropped: nat)
      modifies this
      ensures highest == Evicted(old(highest), cutoff)
      ensures dropped == |old(highest)| - |highest|
    {
      var stale := set k | k in highest && highest[k] < cutoff;
      dropped := |stale|;
      var todo := stale;
      while todo != {}
        invariant todo <= stale
        invariant highest == old(highest) - (stale - todo)
        decreases |todo|
      {
        var k :| k in todo;
        highest := highest - {k};
        todo := todo - {k};
      }
      EvictedCount(old(highest), cutoff, stale);
    }
  }

  // ----- rate -----

  datatype Policy = Policy(window: nat, maxPerWindow: nat)

  ghost predicate ValidPolicy(p: Policy) {
    p.window > 0 && p.maxPerWindow >= 1
  }

  function QueueOf(events: Events, key: Key): seq<int> {
    if key in events then events[key] else []
  }

  /** Checking trims the key's queue, if it has one. */
  function Trimmed(events: Events, p: Policy, key: Key, at: int): Events {
    if key in events then events[key := Trim(events[key], at - p.window)] else events
  }

  predicate UnderRate(events: Events, p: Policy, key: Key, at: int) {
    key in events ==> |Trim(events[key], at - p.window)| < p.maxPerWindow
  }

  function Noted(events: Events, p: Policy, key: Key, at: int): Events {
    events[key := Trim(QueueOf(events, key) + [at], at - p.window)]
  }

  class PropagationLimiter {
    const policy: Policy
    var events: Events

    constructor (policy: Policy)
      requires ValidPolicy(policy)
      ensures this.policy == policy && events == map[]
    {
      this.policy := policy;
      events := map[];
    }

    method Check(r: Record, at: int) returns (d: Decision)
      modifies this`events
      ensures events == Trimmed(old(events), policy, KeyOf(r), at)
      ensures d == if UnderRate(old(events), policy, KeyOf(r), at) then Admitted else RateLimited
    {
      var key := KeyOf(r);
      if key !in events {
        return Admitted;
      }
      var queue := TrimFront(events[key], at - policy.window);
      events := events[key := queue];
      d := if |queue| >= policy.maxPerWindow then RateLimited else Admitted;
    }

    method Commit(r: Record, at: int)
      modifies this`events
      ensures events == Noted(old(events), policy, KeyOf(r), at)
    {
      var key := KeyOf(r);
      var queue := if key in events then events[key] else [];
      queue := TrimFront(queue + [at], at - policy.window);
      events := events[key := queue];
    }
  }

  // ----- the gate -----

  datatype State = State(pins: Pins, events: Events)

  /** What offering a record does: a rewound one touches nothing, a rate-limited one only trims. */
  function Offer(s: State, p: Policy, r: Record, at: int): (State, Decision) {
    if !Fresher(s.pins, r) then (s, Rewound)
    else
      var events := Trimmed(s.events, p, KeyOf(r), at);
      if !UnderRate(s.events, p, KeyOf(r), at) then (s.(events := events), RateLimited)
      else (State(Pinned(s.pins, r), Noted(events, p, KeyOf(r), at)), Admitted)
  }

  class AdmissionGate {
    const freshness: FreshnessTracker
    const limiter: PropagationLimiter

    constructor (freshness: FreshnessTracker, limiter: PropagationLimiter)
      ensures this.freshness == freshness && this.limiter == limiter
    {
      this.freshness := freshness;
      this.limiter := limiter;
    }

    ghost function Contents(): State
      reads freshness, limiter
    {
      State(freshness.highest, limiter.events)
    }

    method Evaluate(r: Record, at: int) returns (d: Decision)
      modifies limiter
      ensures d == Offer(old(Contents()), limiter.policy, r, at).1
      ensures freshness.highest == old(freshness.highest)
      ensures d == Rewound ==> limiter.events == old(limiter.events)
      ensures d != Rewound ==> limiter.events == Trimmed(old(limiter.events), limiter.policy, KeyOf(r), at)
    {
      d := freshness.Check(r);
      if d != Admitted {
        return;
      }
      d := limiter.Check(r, at);
    }

    method Admit(r: Record, at: int) returns (d: Decision)
      modifies freshness, limiter
      ensures (Contents(), d) == Offer(old(Contents()), limiter.policy, r, at)
    {
      d := Evaluate(r, at);
      if d == Admitted {
        freshness.Commit(r);
        limiter.Commit(r, at);
      }
    }
  }

  // ----- any run of offers and evictions -----

  datatype Step = Offered(record: Record, at: int) | EvictOld(cutoff: int)

  function Next(p: Policy, s: State, step: Step): State {
    match step
    case Offered(r, at) => Offer(s, p, r, at).0
    case EvictOld(cutoff) => s.(pins := Evicted(s.pins, cutoff))
  }

  function After(p: Policy, steps: seq<Step>): State {
    if steps == [] then State(map[], map[]) else Next(p, After(p, steps[..|steps| - 1]), steps[|steps| - 1])
  }

  /** Whether the step at `i` is an offer under `key` that the gate admits. */
  ghost predicate AdmittedAt(p: Policy, steps: seq<Step>, i: nat, key: Key)
    requires i < |steps|
  {
    && steps[i].Offered? && KeyOf(steps[i].record) == key
    && Offer(After(p, steps[..i]), p, steps[i].record, steps[i].at).1 == Admitted
  }

  /** The times at which records under `key` were offered. */
  ghost function OfferTimes(steps: seq<Step>, key: Key): seq<int> {
    if steps == [] then []
    else
      var last := steps[|steps| - 1];
      OfferTimes(steps[..|steps| - 1], key) + if last.Offered? && KeyOf(last.record) == key then [last.at] else []
  }

  /** The times at which records under `key` were admitted. */
  ghost function AdmitTimes(p: Policy, steps: seq<Step>, key: Key): seq<int> {
    if steps == [] then []
    else
      var n := |steps| - 1;
      AdmitTimes(p, steps[..n], key) + if AdmittedAt(p, steps, n, key) then [steps[n].at] else []
  }

  /** One offer's effect on its own key's queue. */
  lemma OfferHolds(p: Policy, s: State, r: Record, at: int, history: seq<int>)
    requires Holds(QueueOf(s.events, KeyOf(r)), history, at - p.window)
    ensures var (t, d) := Offer(s, p, r, at);
      Holds(QueueOf(t.events, KeyOf(r)), if d == Admitted then history + [at] else history, at - p.window)
  {
    hide Holds, Fresher;
    var queue, cutoff := QueueOf(s.events, KeyOf(r)), at - p.window;
    HoldsTrimmed(queue, history, cutoff, cutoff);
    HoldsSnoc(queue, history, cutoff, at);
    HoldsSnoc(Trim(queue, cutoff), history, cutoff, at);
    HoldsTrimmed(queue + [at], history + [at], cutoff, cutoff);
    HoldsTrimmed(Trim(queue, cutoff) + [at], history + [at], cutoff, cutoff);
  }

  lemma AdmittedAtLast(p: Policy, before: seq<Step>, last: Step, key: Key)
    ensures AdmittedAt(p, before + [last], |before|, key) ==> last.Offered? && KeyOf(last.record) == key
    ensures last.Offered? && KeyOf(last.record) == key ==> var d := Offer(After(p, before), p, last.record, last.at).1;
      AdmittedAt(p, before + [last], |before|, key) <==> d == Admitted
  {
    hide Offer;
    assert (before + [last])[..|before|] == before;
  }

  /** A key's queue is its admission times, less some that had left the window by its last offer. */
  lemma {:induction false} QueueHolds(p: Policy, steps: seq<Step>, key: Key, now: int)
    requires Rising(OfferTimes(steps, key)) && forall t :: t in OfferTimes(steps, key) ==> t <= now
    ensures Holds(QueueOf(After(p, steps).events, key), AdmitTimes(p, steps, key), now - p.window)
  {
    hide Holds, Offer, AdmittedAt, Rising;
    if steps == [] {
      HoldsAll([], now - p.window);
    } else {
      var n := |steps| - 1;
      var before, last := steps[..n], steps[n];
      AdmittedAtLast(p, before, last, key);
      assert steps == before + [last];
      var times := AdmitTimes(p, before, key);
      assert times + [] == times;
      if last.Offered? && KeyOf(last.record) == key {
        RisingInit(OfferTimes(before, key), last.at);
        QueueHolds(p, before, key, last.at);
        OfferHolds(p, After(p, before), last.record, last.at, times);
        assert last.at in OfferTimes(steps, key);
        HoldsLater(QueueOf(After(p, steps).events, key), AdmitTimes(p, steps, key), last.at - p.window, now - p.window);
      } else {
        assert OfferTimes(steps, key) == OfferTimes(before, key);
        QueueHolds(p, before, key, now);
        OtherQueuesKept(p, After(p, before), last, key);
      }
    }
  }

  lemma OtherQueuesKept(p: Policy, s: State, step: Step, key: Key)
    requires step.Offered? ==> KeyOf(step.record) != key
    ensures QueueOf(Next(p, s, step).events, key) == QueueOf(s.events, key)
  {
    hide Fresher, UnderRate;
  }

  /** Over any run in which the times offered under a key do not go back, every closed window of the
      configured length holds at most the allowed number of admissions under it, evictions or not. */
  lemma {:induction false} WindowHoldsAtMostMax(p: Policy, steps: seq<Step>, key: Key, from: int)
    requires ValidPolicy(p) && Rising(OfferTimes(steps, key))
    ensures CountIn(AdmitTimes(p, steps, key), from, from + p.window) <= p.maxPerWindow
  {
    hide AdmittedAt, Rising, Offer, After, OfferTimes;
    if steps != [] {
      var n := |steps| - 1;
      var before, last := steps[..n], steps[n];
      var times := AdmitTimes(p, before, key);
      assert times + [] == times;
      OffersRiseBefore(steps, key);
      WindowHoldsAtMostMax(p, before, key, from);
      AdmittedAtLast(p, before, last, key);
      assert steps == before + [last];
      if AdmittedAt(p, steps, n, key) {
        CountSnoc(times, last.at, from, from + p.window);
        if from <= last.at <= from + p.window {
          AdmissionLeavesRoom(p, steps, key, from);
        }
      }
    }
  }

  lemma OffersRiseBefore(steps: seq<Step>, key: Key)
    requires steps != [] && Rising(OfferTimes(steps, key))
    ensures Rising(OfferTimes(steps[..|steps| - 1], key))
  {
    hide Rising;
    var before, last := steps[..|steps| - 1], steps[|steps| - 1];
    if last.Offered? && KeyOf(last.record) == key {
      RisingInit(OfferTimes(before, key), last.at);
    } else {
      assert OfferTimes(steps, key) == OfferTimes(before, key) + [] == OfferTimes(before, key);
    }
  }

  lemma AdmissionLeavesRoom(p: Policy, steps: seq<Step>, key: Key, from: int)
    requires ValidPolicy(p) && steps != [] && Rising(OfferTimes(steps, key))
    requires AdmittedAt(p, steps, |steps| - 1, key)
    requires from <= steps[|steps| - 1].at <= from + p.window
    ensures CountIn(AdmitTimes(p, steps[..|steps| - 1], key), from, from + p.window) + 1 <= p.maxPerWindow
  {
    hide Holds, Fresher;
    var before, last := steps[..|steps| - 1], steps[|steps| - 1];
    RisingInit(OfferTimes(before, key), last.at);
    QueueHolds(p, before, key, last.at);
    var queue, times, cutoff := QueueOf(After(p, before).events, key), AdmitTimes(p, before, key), last.at - p.window;
    HoldsTrimmed(queue, times, cutoff, cutoff);
    HeldCount(Trim(queue, cutoff), times, cutoff, from, from + p.window);
  }

  /** Committing a time leaves of the key's queue and it, in order, what follows some first times before the window,
      starting with one in it. */
  lemma {:induction false} CommitTrims(events: Events, p: Policy, key: Key, at: int) returns (k: nat)
    ensures var all, queue := QueueOf(events, key) + [at], QueueOf(Noted(events, p, key, at), key);
      && k <= |all| && queue == all[k..] && (forall i :: 0 <= i < k ==> all[i] < at - p.window)
      && (queue != [] ==> queue[0] >= at - p.window)
  {
    k := TrimDrops(QueueOf(events, key) + [at], at - p.window);
  }

  /** An admission leaves in its key's queue no more than the allowed number of times, the oldest of them in the
      window, so no queue grows beyond that. */
  lemma {:induction false} AdmissionKeepsQueueShort(p: Policy, s: State, r: Record, at: int)
    requires Offer(s, p, r, at).1 == Admitted && ValidPolicy(p)
    ensures var queue := QueueOf(Offer(s, p, r, at).0.events, KeyOf(r));
      |queue| <= p.maxPerWindow && (queue != [] ==> queue[0] >= at - p.window)
  {
    hide Fresher;
    var cutoff := at - p.window;
    var queue := QueueOf(s.events, KeyOf(r));
    var k := TrimDrops(queue, cutoff);
    var m := TrimDrops(Trim(queue, cutoff) + [at], cutoff);
  }

  /** Until an eviction passes it, an admitted record's time stays pinned or is overtaken. */
  lemma {:induction false} PinStays(p: Policy, steps: seq<Step>, i: nat, key: Key)
    requires i < |steps| && AdmittedAt(p, steps, i, key)
    requires forall k :: i < k < |steps| && steps[k].EvictOld? ==> steps[k].cutoff <= steps[i].record.issuedAt
    ensures key in After(p, steps).pins && After(p, steps).pins[key] >= steps[i].record.issuedAt
  {
    hide UnderRate, Noted, Trimmed;
    var n := |steps| - 1;
    var before := steps[..n];
    if i < n {
      assert before[..i] == steps[..i];
      PinStays(p, before, i, key);
    }
  }

  /** Without an eviction past it in between, of two admitted records under one key the later is fresher. */
  lemma AdmittedGetFresher(p: Policy, steps: seq<Step>, i: nat, j: nat, key: Key)
    requires i < j < |steps| && AdmittedAt(p, steps, i, key) && AdmittedAt(p, steps, j, key)
    requires forall k :: i < k < j && steps[k].EvictOld? ==> steps[k].cutoff <= steps[i].record.issuedAt
    ensures steps[i].record.issuedAt < steps[j].record.issuedAt
  {
    hide UnderRate, Noted, Trimmed;
    assert steps[..j][..i] == steps[..i];
    PinStays(p, steps[..j], i, key);
  }

  /** No eviction after step `i` has passed the record offered in it. */
  ghost predicate Unpassed(steps: seq<Step>, i: nat)
    requires i < |steps| && steps[i].Offered?
  {
    forall k :: i < k < |steps| && steps[k].EvictOld? ==> steps[k].cutoff <= steps[i].record.issuedAt
  }

  /** An admission under `key` whose record no later eviction has passed. */
  ghost predicate Stands(p: Policy, steps: seq<Step>, i: nat, key: Key)
    requires i < |steps|
  {
    AdmittedAt(p, steps, i, key) && Unpassed(steps, i)
  }

  lemma StandsInit(p: Policy, steps: seq<Step>, i: nat, key: Key)
    requires i < |steps| - 1
    ensures var n := |steps| - 1;
      var passed := steps[i].Offered? && steps[n].EvictOld? && steps[n].cutoff > steps[i].record.issuedAt;
      Stands(p, steps, i, key) <==> Stands(p, steps[..n], i, key) && !passed
  {
    hide Offer;
    assert steps[..|steps| - 1][..i] == steps[..i];
  }

  /** A pinned key is pinned at the time of an admission under it that stands. */
  lemma {:induction false} PinOrigin(p: Policy, steps: seq<Step>, key: Key) returns (i: nat)
    requires key in After(p, steps).pins
    ensures i < |steps| && Stands(p, steps, i, key) && steps[i].record.issuedAt == After(p, steps).pins[key]
  {
    hide UnderRate, Noted, Trimmed;
    var n := |steps| - 1;
    var before := After(p, steps[..n]);
    if AdmittedAt(p, steps, n, key) {
      i := n;
    } else {
      assert key in before.pins && before.pins[key] == After(p, steps).pins[key];
      i := PinOrigin(p, steps[..n], key);
      assert steps[..n][i] == steps[i];
      StandsInit(p, steps, i, key);
    }
  }

  /** A key is pinned exactly while some admission under it stands, and at the greatest time of those. */
  lemma {:induction false} PinnedIff(p: Policy, steps: seq<Step>, key: Key)
    ensures key in After(p, steps).pins <==> exists i :: 0 <= i < |steps| && Stands(p, steps, i, key)
    ensures forall i :: 0 <= i < |steps| && Stands(p, steps, i, key) ==>
      key in After(p, steps).pins && steps[i].record.issuedAt <= After(p, steps).pins[key]
  {
    hide Offer, After;
    forall i | 0 <= i < |steps| && Stands(p, steps, i, key)
      ensures key in After(p, steps).pins && steps[i].record.issuedAt <= After(p, steps).pins[key]
    {
      PinStays(p, steps, i, key);
    }
    if key in After(p, steps).pins {
      var i := PinOrigin(p, steps, key);
    }
  }

  /** A record is fresher exactly when it is above every admission under its key that stands. */
  lemma {:induction false} FresherIff(p: Policy, steps: seq<Step>, r: Record)
    ensures Fresher(After(p, steps).pins, r) <==>
      forall i :: 0 <= i < |steps| && Stands(p, steps, i, KeyOf(r)) ==> steps[i].record.issuedAt < r.issuedAt
  {
    hide Offer, After;
    PinnedIff(p, steps, KeyOf(r));
    if KeyOf(r) in After(p, steps).pins {
      var i := PinOrigin(p, steps, KeyOf(r));
    }
  }

  lemma {:induction false} AdmitsAmongOffers(p: Policy, steps: seq<Step>, key: Key, now: int)
    requires Rising(OfferTimes(steps, key)) && forall t :: t in OfferTimes(steps, key) ==> t <= now
    ensures Rising(AdmitTimes(p, steps, key)) && forall t :: t in AdmitTimes(p, steps, key) ==> t <= now
  {
    hide AdmittedAt, Offer;
    if steps != [] {
      var n := |steps| - 1;
      var before, last := steps[..n], steps[n];
      AdmittedAtLast(p, before, last, key);
      assert steps == before + [last];
      var times := AdmitTimes(p, before, key);
      assert times + [] == times;
      if last.Offered? && KeyOf(last.record) == key {
        RisingInit(OfferTimes(before, key), last.at);
        AdmitsAmongOffers(p, before, key, last.at);
        assert last.at in OfferTimes(steps, key);
        RisingSnoc(times, last.at);
      } else {
        assert OfferTimes(steps, key) == OfferTimes(before, key) + [] == OfferTimes(before, key);
        AdmitsAmongOffers(p, before, key, now);
      }
    }
  }

  /** Over any run in which the times offered under a key do not go back, a record offered next is admitted
      exactly when fewer than the allowed number were admitted under its key in the window that ends now, and
      it is above every admission under its key that no later eviction has passed. */
  lemma {:induction false} AdmittedIff(p: Policy, steps: seq<Step>, r: Record, at: int)
    requires ValidPolicy(p) && Rising(OfferTimes(steps, KeyOf(r)))
    requires forall t :: t in OfferTimes(steps, KeyOf(r)) ==> t <= at
    ensures Offer(After(p, steps), p, r, at).1 == Admitted <==>
      && CountIn(AdmitTimes(p, steps, KeyOf(r)), at - p.window, at) < p.maxPerWindow
      && forall i :: 0 <= i < |steps| && Stands(p, steps, i, KeyOf(r)) ==> steps[i].record.issuedAt < r.issuedAt
  {
    hide AdmittedAt, Holds, Stands, Fresher, Rising;
    var key, cutoff := KeyOf(r), at - p.window;
    var queue, times := QueueOf(After(p, steps).events, key), AdmitTimes(p, steps, key);
    FresherIff(p, steps, r);
    QueueHolds(p, steps, key, at);
    AdmitsAmongOffers(p, steps, key, at);
    HeldCountIs(queue, times, cutoff, at);
  }

  /** And where it is not, it is refused as rewound exactly when some admission under its key that stands is at or
      above it, and as rate-limited otherwise. */
  lemma {:induction false} RefusedAs(p: Policy, steps: seq<Step>, r: Record, at: int)
    ensures var d := Offer(After(p, steps), p, r, at).1;
      && (d == Rewound <==> exists i :: 0 <= i < |steps| && Stands(p, steps, i, KeyOf(r))
                              && steps[i].record.issuedAt >= r.issuedAt)
      && (d == RateLimited <==> d != Rewound && d != Admitted)
  {
    hide Stands, After, Trimmed, Noted, UnderRate, Fresher;
    FresherIff(p, steps, r);
  }

  /** Two records are held under one key exactly when both their issuer and their key id are the same. */
  lemma {:induction false} KeysTellApart(a: Record, b: Record)
    ensures KeyOf(a) == KeyOf(b) <==> a.iss == b.iss && a.kid == b.kid
  {}

  /** In every state, after an eviction a record is admitted exactly when its key is under its rate and either
      unpinned, pinned below the cutoff, or pinned below the record. */
  lemma AdmittedAfterEvictionIff(p: Policy, s: State, cutoff: int, r: Record, at: int)
    ensures Offer(Next(p, s, EvictOld(cutoff)), p, r, at).1 == Admitted <==>
      && UnderRate(s.events, p, KeyOf(r), at)
      && (KeyOf(r) in s.pins ==> s.pins[KeyOf(r)] < cutoff || s.pins[KeyOf(r)] < r.issuedAt)
  {
    hide UnderRate, Noted, Trimmed;
  }

  /** So whatever a key was pinned at, an eviction past it lets any record of it back in. */
  lemma EvictionAllowsRewind(p: Policy, s: State, cutoff: int, r: Record, at: int)
    requires KeyOf(r) in s.pins && s.pins[KeyOf(r)] < cutoff && UnderRate(s.events, p, KeyOf(r), at)
    ensures Offer(Next(p, s, EvictOld(cutoff)), p, r, at).1 == Admitted
  {
    AdmittedAfterEvictionIff(p, s, cutoff, r, at);
  }
}
