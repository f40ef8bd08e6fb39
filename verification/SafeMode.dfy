/** The safe-mode engine: active triggers force a minimum state, clearing them lets it fall back, and a
    manual downgrade needs an approval. */
module SafeMode {
  import opened Common

  datatype State = Normal | Guarded | Restricted | Quarantine | Lockdown

  datatype Category = Availability | DataProtection | Authorization | CryptoTrust

  datatype Kind = ClockTrustFailure | LedgerDivergence | PolicyRollback | RevocationUncertainty | AnomalyQuarantine

  datatype Trigger = Trigger(kind: Kind, category: Category, minimum: State, observedAt: int)

  datatype Approval = Approval(authority: Category, issuedAt: int)

  datatype Cause = ByTrigger | ByClear | ByDowngrade

  datatype Transition = Transition(from: State, to: State, at: int, cause: Cause, kinds: seq<Kind>)

  datatype Refusal = TargetMoreSevere | Unauthorized | BlockedByTriggers

  function Rank(s: State): nat {
    match s
    case Normal => 0
    case Guarded => 1
    case Restricted => 2
    case Quarantine => 3
    case Lockdown => 4
  }

  function Precedence(c: Category): nat {
    match c
    case Availability => 0
    case DataProtection => 1
    case Authorization => 2
    case CryptoTrust => 3
  }

  predicate MoreSevere(a: State, b: State) {
    Rank(a) > Rank(b)
  }

  predicate HigherAuthority(a: Category, b: Category) {
    Precedence(a) > Precedence(b)
  }

  /** Normal stands for 'no active trigger', so no trigger may ask for it. */
  predicate ValidTrigger(t: Trigger) {
    t.minimum != Normal
  }

  // ----- the worst of several states -----

  function Worst(states: seq<State>): State {
    if states == [] then Normal
    else
      var best, last := Worst(states[..|states| - 1]), states[|states| - 1];
      if MoreSevere(last, best) then last else best
  }

  method MaxState(states: seq<State>) returns (best: State)
    ensures best == Worst(states)
  {
    best := Normal;
    for i := 0 to |states|
      invariant best == Worst(states[..i])
    {
      assert states[..i + 1][..i] == states[..i];
      if MoreSevere(states[i], best) {
        best := states[i];
      }
    }
    assert states[..|states|] == states;
  }

  lemma {:induction false} WorstIsMax(states: seq<State>)
    ensures Worst(states) == Normal || Worst(states) in states
    ensures forall s :: s in states ==> Rank(s) <= Rank(Worst(states))
  {
    if states != [] {
      var init, last := states[..|states| - 1], states[|states| - 1];
      WorstIsMax(init);
      assert states == init + [last];
    }
  }

  // ----- the engine's state -----

  // The active triggers by kind, and their kinds in the order they were first observed.
  datatype Engine = Engine(current: State, order: seq<Kind>, active: map<Kind, Trigger>)

  const FRESH := Engine(Normal, [], map[])

  ghost predicate WellFormed(e: Engine) {
    && (forall k :: k in e.order <==> k in e.active)
    && Distinct(e.order)
    && (forall k :: k in e.active ==> e.active[k].kind == k && ValidTrigger(e.active[k]))
  }

  function Minimums(order: seq<Kind>, active: map<Kind, Trigger>): seq<State>
    requires forall k :: k in order ==> k in active
  {
    seq(|order|, i requires 0 <= i < |order| => active[order[i]].minimum)
  }

  function Computed(order: seq<Kind>, active: map<Kind, Trigger>): State
    requires forall k :: k in order ==> k in active
  {
    Worst(Minimums(order, active))
  }

  function Rebased(e: Engine, computed: State, cause: Cause, at: int): (Engine, Option<Transition>) {
    if computed == e.current then (e, None)
    else (e.(current := computed), Some(Transition(e.current, computed, at, cause, e.order)))
  }

  function Observed(e: Engine, t: Trigger): (Engine, Option<Transition>)
    requires WellFormed(e)
  {
    if t.kind in e.active && !MoreSevere(t.minimum, e.active[t.kind].minimum) then (e, None)
    else
      var order := if t.kind in e.active then e.order else e.order + [t.kind];
      var active := e.active[t.kind := t];
      Rebased(Engine(e.current, order, active), Computed(order, active), ByTrigger, t.observedAt)
  }

  function Without(order: seq<Kind>, k: Kind): seq<Kind> {
    if order == [] then []
    else if order[0] == k then order[1..]
    else [order[0]] + Without(order[1..], k)
  }

  ghost predicate Distinct(order: seq<Kind>) {
    forall i, j :: 0 <= i < j < |order| ==> order[i] != order[j]
  }

  lemma DistinctCons(head: Kind, tail: seq<Kind>)
    ensures Distinct([head] + tail) <==> Distinct(tail) && head !in tail
  {
    var order := [head] + tail;
    if Distinct(order) {
      forall i, j | 0 <= i < j < |tail| ensures tail[i] != tail[j] {
        assert order[i + 1] != order[j + 1];
      }
      forall i | 0 <= i < |tail| ensures tail[i] != head {
        assert order[0] != order[i + 1];
      }
    }
  }

  lemma {:induction false} WithoutFacts(order: seq<Kind>, k: Kind)
    requires Distinct(order)
    ensures Distinct(Without(order, k))
    ensures forall x :: x in Without(order, k) <==> x in order && x != k
  {
    hide Distinct;
    if order != [] {
      var head, tail := order[0], order[1..];
      assert order == [head] + tail;
      DistinctCons(head, tail);
      WithoutFacts(tail, k);
      DistinctCons(head, Without(tail, k));
    }
  }

  function Cleared(e: Engine, k: Kind, at: int): (Engine, Option<Transition>)
    requires WellFormed(e)
  {
    if k !in e.active then (e, None)
    else
      var order, active := Without(e.order, k), e.active - {k};
      WithoutFacts(e.order, k);
      Rebased(Engine(e.current, order, active), Computed(order, active), ByClear, at)
  }

  ghost predicate Outranked(e: Engine, authority: Category) {
    exists k :: k in e.active && HigherAuthority(e.active[k].category, authority)
  }

  ghost function Downgraded(e: Engine, to: State, a: Approval): Result<(Engine, Transition), Refusal>
    requires WellFormed(e)
  {
    if MoreSevere(to, e.current) then Err(TargetMoreSevere)
    else if Outranked(e, a.authority) then Err(Unauthorized)
    else if MoreSevere(Computed(e.order, e.active), to) then Err(BlockedByTriggers)
    else Ok((e.(current := to), Transition(e.current, to, a.issuedAt, ByDowngrade, e.order)))
  }

  class SafeModeEngine {
    var current: State
    var order: seq<Kind>
    var active: map<Kind, Trigger>

    ghost function Contents(): Engine
      reads this
    {
      Engine(current, order, active)
    }

    ghost predicate Valid()
      reads this
    {
      WellFormed(Contents())
    }

    constructor ()
      ensures Valid() && Contents() == FRESH
    {
      current, order, active := Normal, [], map[];
    }

    method ComputeState() returns (s: State)
      requires Valid()
      ensures s == Computed(order, active)
    {
      if order == [] {
        return Normal;
      }
      var minimums := Minimums(order, active);
      s := MaxState(minimums);
    }

    method MaybeTransition(computed: State, cause: Cause, at: int) returns (r: Option<Transition>)
      modifies this`current
      ensures (Contents(), r) == Rebased(old(Contents()), computed, cause, at)
    {
      if computed == current {
        return None;
      }
      r := Some(Transition(current, computed, at, cause, order));
      current := computed;
    }

    method Observe(t: Trigger) returns (r: Option<Transition>)
      requires Valid() && ValidTrigger(t)
      modifies this
      ensures Valid()
      ensures (Contents(), r) == Observed(old(Contents()), t)
    {
      if t.kind in active && !MoreSevere(t.minimum, active[t.kind].minimum) {
        return None;
      }
      if t.kind !in active {
        order := order + [t.kind];
      }
      active := active[t.kind := t];
      var computed := ComputeState();
      r := MaybeTransition(computed, ByTrigger, t.observedAt);
    }

    method Clear(k: Kind, at: int) returns (r: Option<Transition>)
      requires Valid()
      modifies this
      ensures Valid()
      ensures (Contents(), r) == Cleared(old(Contents()), k, at)
    {
      if k !in active {
        return None;
      }
      hide Without, Worst, Rank;
      WithoutFacts(order, k);
      order := Without(order, k);
      active := active - {k};
      var computed := ComputeState();
      r := MaybeTransition(computed, ByClear, at);
    }

    method Downgrade(to: State, a: Approval) returns (r: Result<Transition, Refusal>)
      requires Valid()
      modifies this`current
      ensures Valid()
      ensures r.Err? ==> Contents() == old(Contents()) && Downgraded(old(Contents()), to, a) == Err(r.error)
      ensures r.Ok? ==> Downgraded(old(Contents()), to, a) == Ok((Contents(), r.value))
    {
      if MoreSevere(to, current) {
        return Err(TargetMoreSevere);
      }
      for i := 0 to |order|
        invariant forall j :: 0 <= j < i ==> !HigherAuthority(active[order[j]].category, a.authority)
      {
        if HigherAuthority(active[order[i]].category, a.authority) {
          return Err(Unauthorized);
        }
      }
      assert !Outranked(Contents(), a.authority);
      var floor := ComputeState();
      if MoreSevere(floor, to) {
        return Err(BlockedByTriggers);
      }
      r := Ok(Transition(current, to, a.issuedAt, ByDowngrade, order));
      current := to;
    }
  }

  // ----- any run of the engine -----

  datatype Event =
    | Observation(trigger: Trigger)
    | Clearance(kind: Kind, at: int)
    | Request(to: State, approval: Approval)

  predicate ValidEvent(e: Event) {
    e.Observation? ==> ValidTrigger(e.trigger)
  }

  ghost function Step(e: Engine, event: Event): (r: (Engine, Option<Transition>))
    requires WellFormed(e)
  {
    match event
    case Observation(t) => Observed(e, t)
    case Clearance(k, at) => Cleared(e, k, at)
    case Request(to, a) =>
      var r := Downgraded(e, to, a);
      if r.Err? then (e, None) else (r.value.0, Some(r.value.1))
  }

  lemma DistinctSnoc(order: seq<Kind>, k: Kind)
    requires Distinct(order) && k !in order
    ensures Distinct(order + [k])
  {}

  lemma ObservedKeepsWellFormed(e: Engine, t: Trigger)
    requires WellFormed(e) && ValidTrigger(t)
    ensures WellFormed(Observed(e, t).0)
  {
    hide Rank, Computed, Distinct;
    if t.kind !in e.order {
      DistinctSnoc(e.order, t.kind);
    }
  }

  lemma StepKeepsWellFormed(e: Engine, event: Event)
    requires WellFormed(e) && ValidEvent(event)
    ensures WellFormed(Step(e, event).0)
  {
    hide Rank, Precedence, Computed, Distinct, Observed;
    match event
    case Observation(t) =>
      ObservedKeepsWellFormed(e, t);
    case Clearance(k, _) =>
      WithoutFacts(e.order, k);
    case Request(_, _) =>
  }

  /** The engine after a run from fresh. */
  ghost function After(events: seq<Event>): (e: Engine)
    requires forall x :: x in events ==> ValidEvent(x)
    ensures WellFormed(e)
  {
    if events == [] then FRESH
    else
      var before := After(events[..|events| - 1]);
      StepKeepsWellFormed(before, events[|events| - 1]);
      Step(before, events[|events| - 1]).0
  }

  /** The transitions a run returns. */
  ghost function Trace(events: seq<Event>): seq<Transition>
    requires forall x :: x in events ==> ValidEvent(x)
  {
    if events == [] then []
    else
      var r := Step(After(events[..|events| - 1]), events[|events| - 1]).1;
      Trace(events[..|events| - 1]) + if r.Some? then [r.value] else []
  }

  /** The observations of a kind since it was last cleared. */
  ghost function SinceClear(events: seq<Event>, k: Kind): seq<Trigger> {
    if events == [] then []
    else
      var before, last := SinceClear(events[..|events| - 1], k), events[|events| - 1];
      if last.Observation? && last.trigger.kind == k then before + [last.trigger]
      else if last.Clearance? && last.kind == k then []
      else before
  }

  /** The first of the triggers to ask for the most severe state any of them asks for. */
  ghost predicate IsStrongest(t: Trigger, triggers: seq<Trigger>) {
    exists i :: 0 <= i < |triggers| && triggers[i] == t && FirstToReach(triggers, i)
  }

  ghost predicate FirstToReach(triggers: seq<Trigger>, i: nat)
    requires i < |triggers|
  {
    && (forall j :: 0 <= j < i ==> Rank(triggers[j].minimum) < Rank(triggers[i].minimum))
    && (forall j :: i < j < |triggers| ==> Rank(triggers[j].minimum) <= Rank(triggers[i].minimum))
  }

  lemma StrongestExtends(t: Trigger, triggers: seq<Trigger>, next: Trigger)
    requires IsStrongest(t, triggers)
    ensures IsStrongest(if MoreSevere(next.minimum, t.minimum) then next else t, triggers + [next])
  {
    hide Rank;
    var i :| 0 <= i < |triggers| && triggers[i] == t && FirstToReach(triggers, i);
    var all := triggers + [next];
    if MoreSevere(next.minimum, t.minimum) {
      assert FirstToReach(all, |triggers|);
    } else {
      assert FirstToReach(all, i);
    }
  }

  function Held(e: Engine, k: Kind): Option<Trigger> {
    if k in e.active then Some(e.active[k]) else None
  }

  function Stronger(held: Option<Trigger>, t: Trigger): Trigger {
    if held.Some? && !MoreSevere(t.minimum, held.value.minimum) then held.value else t
  }

  lemma RebasedHolds(e: Engine, computed: State, cause: Cause, at: int)
    ensures Rebased(e, computed, cause, at).0.active == e.active
  {}

  lemma ObservedHolds(e: Engine, t: Trigger, k: Kind)
    requires WellFormed(e)
    ensures Held(Observed(e, t).0, k) == if t.kind == k then Some(Stronger(Held(e, k), t)) else Held(e, k)
  {
    hide Rank, Computed, MoreSevere, Rebased, Distinct;
    var order := if t.kind in e.active then e.order else e.order + [t.kind];
    var active := e.active[t.kind := t];
    RebasedHolds(Engine(e.current, order, active), Computed(order, active), ByTrigger, t.observedAt);
  }

  lemma ClearedHolds(e: Engine, cleared: Kind, at: int, k: Kind)
    requires WellFormed(e)
    ensures Held(Cleared(e, cleared, at).0, k) == if cleared == k then None else Held(e, k)
  {
    hide Rank, Computed, Distinct;
  }

  lemma StepActive(e: Engine, event: Event, k: Kind)
    requires WellFormed(e) && ValidEvent(event)
    ensures var held, next := Held(e, k), Held(Step(e, event).0, k);
      if event.Observation? && event.trigger.kind == k then next == Some(Stronger(held, event.trigger))
      else if event.Clearance? && event.kind == k then next == None
      else next == held
  {
    hide Observed, Cleared, WellFormed, Outranked, Computed, MoreSevere, Stronger;
    match event
    case Observation(t) =>
      ObservedHolds(e, t, k);
    case Clearance(cleared, at) =>
      ClearedHolds(e, cleared, at, k);
    case Request(_, _) =>
  }

  /** What the engine holds for a kind is the strongest of its observations since its last clear. */
  lemma {:induction false} ActiveIsStrongest(events: seq<Event>, k: Kind)
    requires forall x :: x in events ==> ValidEvent(x)
    ensures k in After(events).active <==> SinceClear(events, k) != []
    ensures k in After(events).active ==> IsStrongest(After(events).active[k], SinceClear(events, k))
  {
    hide Rank, Step, IsStrongest;
    if events != [] {
      var init, last := events[..|events| - 1], events[|events| - 1];
      ActiveIsStrongest(init, k);
      StepActive(After(init), last, k);
      if last.Observation? && last.trigger.kind == k {
        if k in After(init).active {
          StrongestExtends(After(init).active[k], SinceClear(init, k), last.trigger);
        } else {
          assert SinceClear(events, k) == [last.trigger];
          OnlyIsStrongest(last.trigger);
        }
      }
    }
  }

  lemma OnlyIsStrongest(t: Trigger)
    ensures IsStrongest(t, [t])
  {
    assert FirstToReach([t], 0);
  }

  /** In every reachable state the engine is exactly where its active triggers put it. */
  lemma {:induction false} CurrentIsComputed(events: seq<Event>)
    requires forall x :: x in events ==> ValidEvent(x)
    ensures After(events).current == Computed(After(events).order, After(events).active)
  {
    hide Computed, Step;
    if events == [] {
      NothingActive();
    } else {
      var init := events[..|events| - 1];
      CurrentIsComputed(init);
      StepIsComputed(After(init), events[|events| - 1]);
    }
  }

  lemma StepIsComputed(e: Engine, event: Event)
    requires WellFormed(e) && ValidEvent(event) && e.current == Computed(e.order, e.active)
    ensures var next := Step(e, event).0;
      WellFormed(next) && next.current == Computed(next.order, next.active)
  {
    hide Computed, Outranked;
    StepKeepsWellFormed(e, event);
    SeveritiesAreDistinct();
  }

  lemma NothingActive()
    ensures Computed([], map[]) == Normal
  {}

  lemma SeveritiesAreDistinct()
    ensures forall a, b :: !MoreSevere(a, b) && !MoreSevere(b, a) ==> a == b
  {}

  /** After any run from fresh, the engine's state is the most severe one any kind's observations since its
      last clear ask for, and Normal when there is none. */
  lemma {:induction false} StateRefinesHistory(events: seq<Event>)
    requires forall x :: x in events ==> ValidEvent(x)
    ensures forall k, t :: t in SinceClear(events, k) ==> Rank(t.minimum) <= Rank(After(events).current)
    ensures var now := After(events).current;
      now != Normal ==> exists k, t :: t in SinceClear(events, k) && t.minimum == now
  {
    hide Rank;
    var e := After(events);
    CurrentIsComputed(events);
    var minimums := Minimums(e.order, e.active);
    WorstIsMax(minimums);
    forall k, t | t in SinceClear(events, k) ensures Rank(t.minimum) <= Rank(e.current) {
      ActiveIsStrongest(events, k);
      StrongestIsHighest(e.active[k], SinceClear(events, k), t);
      assert k in e.order;
      var i :| 0 <= i < |e.order| && e.order[i] == k;
      assert minimums[i] in minimums;
    }
    if e.current != Normal {
      var i :| 0 <= i < |minimums| && minimums[i] == e.current;
      var k := e.order[i];
      ActiveIsStrongest(events, k);
      assert e.active[k] in SinceClear(events, k);
    }
  }

  lemma StrongestIsHighest(t: Trigger, triggers: seq<Trigger>, other: Trigger)
    requires IsStrongest(t, triggers) && other in triggers
    ensures Rank(other.minimum) <= Rank(t.minimum)
  {
    hide Rank;
    var i :| 0 <= i < |triggers| && triggers[i] == t && FirstToReach(triggers, i);
    var j :| 0 <= j < |triggers| && triggers[j] == other;
  }

  // ----- the path of transitions -----

  ghost predicate Proper(t: Transition) {
    match t.cause
    case ByTrigger => MoreSevere(t.to, t.from)
    case ByClear => MoreSevere(t.from, t.to)
    case ByDowngrade => t.to == t.from
  }

  /** The transitions lead from `start` to `end`, each where the one before it left off. */
  ghost predicate Linked(start: State, path: seq<Transition>, end: State) {
    if path == [] then start == end
    else path[|path| - 1].to == end && Linked(start, path[..|path| - 1], path[|path| - 1].from)
  }

  lemma StrengthenedRises(order: seq<Kind>, active: map<Kind, Trigger>, more: seq<Kind>, t: Trigger)
    requires forall k :: k in order <==> k in active
    requires more == if t.kind in active then order else order + [t.kind]
    requires t.kind in active ==> MoreSevere(t.minimum, active[t.kind].minimum)
    ensures Rank(Computed(order, active)) <= Rank(Computed(more, active[t.kind := t]))
  {
    hide Rank;
    var before, after := Minimums(order, active), Minimums(more, active[t.kind := t]);
    WorstIsMax(before);
    WorstIsMax(after);
    NormalIsLeast(Worst(after));
    if Worst(before) != Normal {
      var i :| 0 <= i < |before| && before[i] == Worst(before);
      assert after[i] in after;
      assert Rank(before[i]) <= Rank(after[i]);
    }
  }

  lemma NormalIsLeast(s: State)
    ensures Rank(Normal) <= Rank(s)
  {}

  lemma ClearedFalls(e: Engine, k: Kind)
    requires WellFormed(e) && k in e.active
    ensures forall x :: x in Without(e.order, k) ==> x in e.active - {k}
    ensures Rank(Computed(Without(e.order, k), e.active - {k})) <= Rank(Computed(e.order, e.active))
  {
    hide Rank;
    WithoutFacts(e.order, k);
    var left := Without(e.order, k);
    var before, after := Minimums(e.order, e.active), Minimums(left, e.active - {k});
    WorstIsMax(before);
    WorstIsMax(after);
    NormalIsLeast(Worst(before));
    if Worst(after) != Normal {
      var i :| 0 <= i < |after| && after[i] == Worst(after);
      assert left[i] in left;
      var j :| 0 <= j < |e.order| && e.order[j] == left[i];
      assert before[j] in before;
    }
  }

  /** A trigger's transition rises, a clear's falls, and a downgrade's goes nowhere. */
  lemma StepIsProper(e: Engine, event: Event)
    requires WellFormed(e) && ValidEvent(event) && e.current == Computed(e.order, e.active)
    ensures var (next, t) := Step(e, event);
      if t.None? then next.current == e.current
      else t.value.from == e.current && t.value.to == next.current && Proper(t.value)
  {
    hide Worst, Minimums, Rank;
    SeveritiesAreDistinct();
    match event
    case Observation(t) =>
      if !(t.kind in e.active && !MoreSevere(t.minimum, e.active[t.kind].minimum)) {
        var order := if t.kind in e.active then e.order else e.order + [t.kind];
        StrengthenedRises(e.order, e.active, order, t);
      }
    case Clearance(k, _) =>
      if k in e.active {
        ClearedFalls(e, k);
      }
    case Request(_, _) =>
  }

  /** From a fresh engine the returned transitions form a path from Normal to where the engine is, each one
      proper to its cause. */
  lemma {:induction false} TraceIsPath(events: seq<Event>)
    requires forall x :: x in events ==> ValidEvent(x)
    ensures Linked(Normal, Trace(events), After(events).current)
    ensures forall t :: t in Trace(events) ==> Proper(t)
  {
    hide Step, Proper, Computed;
    if events != [] {
      var init, last := events[..|events| - 1], events[|events| - 1];
      TraceIsPath(init);
      CurrentIsComputed(init);
      StepIsProper(After(init), last);
      var r := Step(After(init), last).1;
      if r.Some? {
        assert Trace(events)[..|Trace(init)|] == Trace(init);
      } else {
        assert Trace(events) == Trace(init) + [] == Trace(init);
      }
    }
  }

  /** In every reachable state a downgrade succeeds exactly when it asks for the state the engine is already
      in, with an authority no active trigger outranks: it never lowers the state. */
  lemma {:induction false} DowngradeNeverLowers(events: seq<Event>, to: State, a: Approval)
    requires forall x :: x in events ==> ValidEvent(x)
    ensures var e := After(events);
      Downgraded(e, to, a).Ok? <==> to == e.current && !Outranked(e, a.authority)
    ensures var e := After(events);
      Downgraded(e, to, a).Ok? ==> Downgraded(e, to, a).value.0 == e
  {
    hide Computed, Outranked;
    CurrentIsComputed(events);
    SeveritiesAreDistinct();
  }
}
