/** What the safe-mode engine reports: each transition's time, cause and kinds, the order the kinds come in, and
    exactly why a downgrade is refused. */
module Transitions {
  import opened Common
  import opened SafeMode

  /** The five states from least to most severe, and the four categories from least to most authority. */
  lemma OrdersAsListed()
    ensures MoreSevere(Lockdown, Quarantine) && MoreSevere(Quarantine, Restricted)
    ensures MoreSevere(Restricted, Guarded) && MoreSevere(Guarded, Normal)
    ensures HigherAuthority(CryptoTrust, Authorization) && HigherAuthority(Authorization, DataProtection)
    ensures HigherAuthority(DataProtection, Availability)
    ensures forall a, b, c :: MoreSevere(a, b) && MoreSevere(b, c) ==> MoreSevere(a, c)
    ensures forall a, b, c :: HigherAuthority(a, b) && HigherAuthority(b, c) ==> HigherAuthority(a, c)
    ensures forall a :: !MoreSevere(a, a)
    ensures forall a :: !HigherAuthority(a, a)
  {}

  function TimeOf(event: Event): int {
    match event
    case Observation(t) => t.observedAt
    case Clearance(_, at) => at
    case Request(_, a) => a.issuedAt
  }

  function CauseOf(event: Event): Cause {
    match event
    case Observation(_) => ByTrigger
    case Clearance(_, _) => ByClear
    case Request(_, _) => ByDowngrade
  }

  /** A transition bears the time and the cause of the event that makes it, and lists each kind that is active after
      it, once. */
  lemma {:induction false} ReportsItsEvent(e: Engine, event: Event)
    requires WellFormed(e) && ValidEvent(event)
    ensures var (next, t) := Step(e, event);
      t.Some? ==>
        && t.value.at == TimeOf(event) && t.value.cause == CauseOf(event) && t.value.kinds == next.order
        && (forall k :: k in t.value.kinds <==> k in next.active)
        && (forall i, j :: 0 <= i < j < |t.value.kinds| ==> t.value.kinds[i] != t.value.kinds[j])
  {
    hide Rank, Precedence, Computed, Outranked;
    StepKeepsWellFormed(e, event);
  }

  // ----- the order of the kinds -----

  /** How many events there had been when the kind became active, if it is: those up to its first observation since
      its last clear. */
  ghost function ActiveSince(events: seq<Event>, k: Kind): nat {
    if events == [] then 0
    else
      var last := events[|events| - 1];
      if last.Observation? && last.trigger.kind == k && SinceClear(events[..|events| - 1], k) == [] then |events|
      else ActiveSince(events[..|events| - 1], k)
  }

  ghost predicate OldestFirst(events: seq<Event>, order: seq<Kind>) {
    forall i, j :: 0 <= i < j < |order| ==> ActiveSince(events, order[i]) < ActiveSince(events, order[j])
  }

  lemma {:induction false} ActiveSinceBounds(events: seq<Event>, k: Kind)
    ensures ActiveSince(events, k) <= |events|
  {
    if events != [] {
      ActiveSinceBounds(events[..|events| - 1], k);
    }
  }

  lemma {:induction false} WithoutIndex(order: seq<Kind>, k: Kind, i: nat) returns (j: nat)
    requires i < |Without(order, k)|
    ensures i <= j < |order| && Without(order, k)[i] == order[j]
    ensures j <= i + 1 && (j == i + 1 <==> exists a :: 0 <= a <= i && order[a] == k)
  {
    if order[0] == k {
      j := i + 1;
    } else if i == 0 {
      j := 0;
    } else {
      var rest := WithoutIndex(order[1..], k, i - 1);
      j := rest + 1;
      if a :| 0 <= a <= i - 1 && order[1..][a] == k {
        assert order[a + 1] == k;
      }
    }
  }

  lemma WithoutKeepsOrder(events: seq<Event>, order: seq<Kind>, k: Kind)
    requires OldestFirst(events, order)
    ensures OldestFirst(events, Without(order, k))
  {
    hide Without, ActiveSince;
    var left := Without(order, k);
    forall i, j | 0 <= i < j < |left| ensures ActiveSince(events, left[i]) < ActiveSince(events, left[j]) {
      var a := WithoutIndex(order, k, i);
      var b := WithoutIndex(order, k, j);
    }
  }

  /** What an event does to the order of the active kinds. */
  lemma StepOrder(e: Engine, event: Event)
    requires WellFormed(e) && ValidEvent(event)
    ensures var next := Step(e, event).0;
      match event
      case Observation(t) => next.order == if t.kind in e.active then e.order else e.order + [t.kind]
      case Clearance(k, _) => next.order == if k in e.active then Without(e.order, k) else e.order
      case Request(_, _) => next.order == e.order
  {
    hide Rank, Precedence, Computed, Outranked, Without;
  }

  lemma OthersSince(init: seq<Event>, last: Event, k: Kind)
    requires !(last.Observation? && last.trigger.kind == k && SinceClear(init, k) == [])
    ensures ActiveSince(init + [last], k) == ActiveSince(init, k)
  {
    assert (init + [last])[..|init|] == init;
  }

  ghost predicate NoneNewlyActive(init: seq<Event>, last: Event, order: seq<Kind>) {
    forall i :: 0 <= i < |order| ==>
      !(last.Observation? && last.trigger.kind == order[i] && SinceClear(init, order[i]) == [])
  }

  lemma OldestFirstOn(init: seq<Event>, last: Event, order: seq<Kind>)
    requires OldestFirst(init, order) && NoneNewlyActive(init, last, order)
    ensures OldestFirst(init + [last], order)
    ensures forall i :: 0 <= i < |order| ==> ActiveSince(init + [last], order[i]) <= |init|
  {
    hide ActiveSince, SinceClear;
    forall i | 0 <= i < |order|
      ensures ActiveSince(init + [last], order[i]) == ActiveSince(init, order[i]) <= |init|
    {
      OthersSince(init, last, order[i]);
      ActiveSinceBounds(init, order[i]);
    }
  }

  lemma AllActive(events: seq<Event>, last: Event)
    requires forall x :: x in events ==> ValidEvent(x)
    ensures NoneNewlyActive(events, last, After(events).order)
  {
    hide SinceClear, IsStrongest;
    var e := After(events);
    forall i | 0 <= i < |e.order| ensures SinceClear(events, e.order[i]) != [] {
      ActiveIsStrongest(events, e.order[i]);
    }
  }

  /** The kinds the engine lists are in the order they became active: by first observation since last cleared. */
  lemma {:induction false} KindsOldestFirst(events: seq<Event>)
    requires forall x :: x in events ==> ValidEvent(x)
    ensures OldestFirst(events, After(events).order)
  {
    hide Step, ActiveSince, Without, SinceClear, WellFormed, OldestFirst, NoneNewlyActive;
    if events == [] {
      NoneActiveYet();
    } else {
      var init, last := events[..|events| - 1], events[|events| - 1];
      assert events == init + [last];
      KindsOldestFirst(init);
      AllActive(init, last);
      StepOrder(After(init), last);
      OrderOn(init, last);
    }
  }

  lemma NoneActiveYet()
    ensures OldestFirst([], After([]).order)
  {}

  lemma OrderOn(init: seq<Event>, last: Event)
    requires forall x :: x in init ==> ValidEvent(x)
    requires OldestFirst(init, After(init).order) && NoneNewlyActive(init, last, After(init).order)
    ensures var e := After(init);
      match last
      case Observation(t) => OldestFirst(init + [last], if t.kind in e.active then e.order else e.order + [t.kind])
      case Clearance(k, _) => OldestFirst(init + [last], if k in e.active then Without(e.order, k) else e.order)
      case Request(_, _) => OldestFirst(init + [last], e.order)
  {
    hide ActiveSince, SinceClear, Without, WellFormed, IsStrongest, After;
    var e := After(init);
    OldestFirstOn(init, last, e.order);
    match last
    case Observation(t) =>
      ActiveIsStrongest(init, t.kind);
      if t.kind !in e.active {
        JustActive(init, last);
      }
    case Clearance(k, _) =>
      WithoutKeepsOrder(init + [last], e.order, k);
    case Request(_, _) =>
  }

  lemma JustActive(init: seq<Event>, last: Event)
    requires last.Observation? && SinceClear(init, last.trigger.kind) == []
    ensures ActiveSince(init + [last], last.trigger.kind) == |init| + 1
  {
    assert (init + [last])[..|init|] == init;
  }

  // ----- downgrades -----

  /** In every reachable state a downgrade is answered so: a more severe target is refused as such; then, where some
      active trigger has more authority than the approval, as unauthorized; then a less severe target as blocked; and
      only the present state is granted, as a transition from it to itself at the approval's time. */
  lemma {:induction false} DowngradeAnswers(events: seq<Event>, to: State, a: Approval)
    requires forall x :: x in events ==> ValidEvent(x)
    ensures var e := After(events);
      var r := Downgraded(e, to, a);
      var outranked := exists k :: k in e.active && HigherAuthority(e.active[k].category, a.authority);
      && (r == Err(TargetMoreSevere) <==> MoreSevere(to, e.current))
      && (r == Err(Unauthorized) <==> !MoreSevere(to, e.current) && outranked)
      && (r == Err(BlockedByTriggers) <==> MoreSevere(e.current, to) && !outranked)
      && (r == Ok((e, Transition(to, to, a.issuedAt, ByDowngrade, e.order))) <==> to == e.current && !outranked)
  {
    hide Computed;
    CurrentIsComputed(events);
    SeveritiesAreDistinct();
  }
}
