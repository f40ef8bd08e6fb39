/** Rebalancing over long runs: exactly which controllers a rebalance raises on, and what any interleaving
    of operations and rebalances keeps on one whose ceilings fit. */
module Rebalancing {
  import opened Common
  import opened Quotas
  import opened Budgets
  import opened Allocation
  import opened Rebalancer

  // ----- when a rebalance raises -----

  function LoadOf(b: Books, i: nat): Load<string>
    requires i < |b.pools|
  {
    Load(b.pools[i], Use(b.poolUse, b.pools[i].key))
  }

  /** The i-th pool is slack, gives whole units away, and even so its ceiling still oversubscribes the total
      beside the other pools' floors. */
  ghost predicate StaysOver(p: Policy, b: Books, i: nat)
    requires ValidPolicy(p) && i < |b.pools|
  {
    var given := Donation(Headroom(LoadOf(b, i)), p.fraction);
    && IsSlack(p, LoadOf(b, i)) && given > 0
    && b.pools[i].cap - given + OtherFloors(b.pools, b.pools[i].key) > b.total
  }

  lemma {:induction false} SlackIndex<K>(p: Policy, ls: seq<Load<K>>, i: nat) returns (a: nat)
    requires i < |ls| && IsSlack(p, ls[i])
    ensures a < |Slack(p, ls)| && Slack(p, ls)[a] == ls[i]
  {
    var n := |ls| - 1;
    if i < n {
      a := SlackIndex(p, ls[..n], i);
    } else {
      a := |Slack(p, ls[..n])|;
    }
  }

  ghost function PoolLoads(b: Books): seq<Load<string>> {
    Loads(b.pools, b.poolUse)
  }

  ghost function Given(p: Policy, b: Books): seq<(string, nat)>
    requires ValidPolicy(p)
  {
    Donations(HeadroomItems(Slack(p, PoolLoads(b))), p.fraction)
  }

  /** Where the pools cascade and something is given, the draft starts with the donors' changes. */
  lemma DraftOpens(p: Policy, b: Books)
    requires ValidPolicy(p) && Good(b) && Cascades(p, PoolLoads(b)) && Sum(Given(p, b)) > 0
    ensures Collect(Given(p, b)) == Positive(Given(p, b))
    ensures TransferFor(p, PoolLoads(b)).Some? && TransferFor(p, PoolLoads(b)).value.donors == Positive(Given(p, b))
    ensures var t := TransferFor(p, PoolLoads(b)).value;
      PoolDraft(p, b) == DonorChanges(b.pools, b.poolUse, t.donors) + RecipientChanges(b.pools, Room(b), t.recipients)
    ensures forall k :: 0 <= k < |Positive(Given(p, b))| ==> Backed(b.pools, b.poolUse, Positive(Given(p, b))[k])
  {
    hide Good, Distinct, Sourced, DistinctLoads, Backed, HasKey, DonorChanges, RecipientChanges, Recipients;
    GoodLoads(b);
    DonorsBacked(p, PoolLoads(b), b.pools, b.poolUse);
  }

  lemma GoodLoads(b: Books)
    requires Good(b)
    ensures Sourced(PoolLoads(b), b.pools, b.poolUse) && DistinctLoads(PoolLoads(b))
  {
    LoadsSourced(b.pools, b.poolUse);
  }

  /** What the k-th donor's change does to which pool. */
  lemma DonorOf(p: Policy, b: Books, k: nat) returns (i: nat)
    requires ValidPolicy(p) && Good(b) && k < |Positive(Given(p, b))|
    ensures i < |b.pools| && IsSlack(p, LoadOf(b, i))
    ensures Positive(Given(p, b))[k] == (b.pools[i].key, Donation(Headroom(LoadOf(b, i)), p.fraction))
    ensures Positive(Given(p, b))[k].1 > 0
  {
    var a := PositiveOrigin(Given(p, b), k);
    i := SlackOrigin(p, PoolLoads(b), a);
  }

  lemma DonorChanged(b: Books, i: nat, d: nat)
    requires Good(b) && i < |b.pools| && Backed(b.pools, b.poolUse, (b.pools[i].key, d))
    ensures var q := b.pools[i];
      DonorChange(b.pools, b.poolUse, (q.key, d)) == Change(q.key, q.cap, q.cap - d)
  {
    DonorSound(b.pools, b.poolUse, (b.pools[i].key, d));
    FindIn(b.pools, b.pools[i]);
  }

  /** A slack pool that gives has its change in the draft. */
  lemma DonorDrafted(p: Policy, b: Books, i: nat) returns (k: nat)
    requires ValidPolicy(p) && Good(b) && Cascades(p, PoolLoads(b)) && i < |b.pools| && StaysOver(p, b, i)
    ensures k < |PoolDraft(p, b)|
    ensures var given := Donation(Headroom(LoadOf(b, i)), p.fraction);
      PoolDraft(p, b)[k] == Change(b.pools[i].key, b.pools[i].cap, b.pools[i].cap - given)
  {
    hide Good, Backed, DonorChange, DonorChanges, RecipientChanges, TransferFor, PoolDraft, Cascades;
    var given := Given(p, b);
    var a := SlackIndex(p, PoolLoads(b), i);
    assert given[a] == (b.pools[i].key, Donation(Headroom(LoadOf(b, i)), p.fraction));
    SumAtLeast(given, a);
    k := PositiveIndex(given, a);
    DraftOpens(p, b);
    DonorsPointwise(b.pools, b.poolUse, Positive(given));
    DonorChanged(b, i, given[a].1);
  }

  lemma RecipientFits(b: Books, ds: Dict<string>, j: nat)
    requires j < |RecipientChanges(b.pools, Room(b), ds)|
    ensures var c := RecipientChanges(b.pools, Room(b), ds)[j];
      c.newCap + OtherFloors(b.pools, c.key) <= b.total
  {
    var o := RecipientOrigin(b.pools, Room(b), ds, j);
  }

  lemma UnfitIndex(p: Policy, b: Books, j: nat)
    requires ValidPolicy(p) && Good(b) && Cascades(p, PoolLoads(b)) && Sum(Given(p, b)) > 0
    requires j < |PoolDraft(p, b)|
    requires var c := PoolDraft(p, b)[j]; c.newCap + OtherFloors(b.pools, c.key) > b.total
    ensures j < |Positive(Given(p, b))| && Backed(b.pools, b.poolUse, Positive(Given(p, b))[j])
    ensures PoolDraft(p, b)[j] == DonorChange(b.pools, b.poolUse, Positive(Given(p, b))[j])
  {
    hide Good, Backed, DonorChange, DonorChanges, RecipientChanges, TransferFor, PoolDraft, Cascades, Positive, Room;
    hide Given, Sum, OtherFloors;
    var donors := Positive(Given(p, b));
    DraftOpens(p, b);
    DonorsPointwise(b.pools, b.poolUse, donors);
    if j >= |donors| {
      RecipientFits(b, TransferFor(p, PoolLoads(b)).value.recipients, j - |donors|);
      assert false;
    }
  }

  /** A drafted change that does not fit is a donor's: recipients never grow past their room. */
  lemma UnfitIsDonor(p: Policy, b: Books, j: nat) returns (i: nat)
    requires ValidPolicy(p) && Good(b) && j < |PoolDraft(p, b)|
    requires var c := PoolDraft(p, b)[j]; c.newCap + OtherFloors(b.pools, c.key) > b.total
    ensures Cascades(p, PoolLoads(b)) && i < |b.pools| && StaysOver(p, b, i)
  {
    DraftNeedsDonors(p, b);
    hide Good, Backed, DonorChange, PoolDraft, Cascades, Positive, Given, Sum, OtherFloors;
    UnfitIndex(p, b, j);
    i := DonorOf(p, b, j);
    DonorChanged(b, i, Positive(Given(p, b))[j].1);
  }

  lemma DraftNeedsDonors(p: Policy, b: Books)
    requires ValidPolicy(p) && PoolDraft(p, b) != []
    ensures Cascades(p, PoolLoads(b)) && Sum(Given(p, b)) > 0
  {}

  lemma UnfitReordered(b: Books, cs: seq<Change<string>>, j: nat)
    requires j < |cs| && cs[j].newCap != cs[j].oldCap && cs[j].newCap + OtherFloors(b.pools, cs[j].key) > b.total
    ensures !Fitting(b, Shrinks(cs) + Grows(cs))
  {
    var r := Shrinks(cs) + Grows(cs);
    if cs[j].newCap < cs[j].oldCap {
      var k := ShrinksIndex(cs, j);
      assert r[k] == cs[j];
    } else {
      var k := GrowsIndex(cs, j);
      assert r[|Shrinks(cs)| + k] == cs[j];
    }
  }

  lemma {:induction false} ShrinksIndex<K>(cs: seq<Change<K>>, j: nat) returns (k: nat)
    requires j < |cs| && cs[j].newCap < cs[j].oldCap
    ensures k < |Shrinks(cs)| && Shrinks(cs)[k] == cs[j]
  {
    var n := |cs| - 1;
    if j < n {
      k := ShrinksIndex(cs[..n], j);
    } else {
      k := |Shrinks(cs[..n])|;
    }
  }

  lemma {:induction false} GrowsIndex<K>(cs: seq<Change<K>>, j: nat) returns (k: nat)
    requires j < |cs| && cs[j].newCap > cs[j].oldCap
    ensures k < |Grows(cs)| && Grows(cs)[k] == cs[j]
  {
    var n := |cs| - 1;
    if j < n {
      k := GrowsIndex(cs[..n], j);
    } else {
      k := |Grows(cs[..n])|;
    }
  }

  /** A rebalance raises exactly when the pools cascade and some slack pool's ceiling, less the whole units it
      gives, still exceeds what the other pools' floors leave of the total. */
  lemma {:induction false} RebalanceRaisesIff(p: Policy, b: Books)
    requires ValidPolicy(p) && Good(b)
    ensures ApplyAll(b, PlanOf(Evaluate(p, b))).1.Some?
      <==> Cascades(p, PoolLoads(b)) && exists i :: 0 <= i < |b.pools| && StaysOver(p, b, i)
  {
    hide Good, StaysOver, PoolDraft, Cascades, ApplyAll, PlanOf, Shrinks, Grows;
    PlanLands(p, b, "");
    EvaluatePools(p, b);
    var cs := PoolDraft(p, b);
    if Cascades(p, PoolLoads(b)) && exists i :: 0 <= i < |b.pools| && StaysOver(p, b, i) {
      var i :| 0 <= i < |b.pools| && StaysOver(p, b, i);
      OverIsUnfit(p, b, i);
    } else if !Fitting(b, Shrinks(cs) + Grows(cs)) {
      var j := UnfitOrigin(b, cs);
      var i := UnfitIsDonor(p, b, j);
    }
  }

  lemma OverIsUnfit(p: Policy, b: Books, i: nat)
    requires ValidPolicy(p) && Good(b) && Cascades(p, PoolLoads(b)) && i < |b.pools| && StaysOver(p, b, i)
    ensures var cs := PoolDraft(p, b); !Fitting(b, Shrinks(cs) + Grows(cs))
  {
    hide Good, PoolDraft, Cascades;
    var k := DonorDrafted(p, b, i);
    UnfitReordered(b, PoolDraft(p, b), k);
  }

  lemma UnfitOrigin(b: Books, cs: seq<Change<string>>) returns (j: nat)
    requires !Fitting(b, Shrinks(cs) + Grows(cs))
    ensures j < |cs| && cs[j].newCap + OtherFloors(b.pools, cs[j].key) > b.total
  {
    var r := Shrinks(cs) + Grows(cs);
    var i :| 0 <= i < |r| && r[i].newCap + OtherFloors(b.pools, r[i].key) > b.total;
    j := ReorderedOrigin(cs, i);
  }

  /** A controller that the constructor accepts and one acquire reaches, on which a rebalance raises. */
  lemma RebalanceCanRaise()
    ensures var p := Policy(0.85, 0.3, 1, 0.2);
      var start := Books(10, [Quota("hot", 0, 4), Quota("idle", 0, 100)], [], map[], map[]);
      var b := Step(start, Acquire("hot", 4, None)).0;
      && ValidPolicy(p) && ValidConfig(10, start.pools, start.tenants)
      && Good(b) && ApplyAll(b, PlanOf(Evaluate(p, b))).1.Some?
  {
    hide ApplyAll, PlanOf, Evaluate;
    var p := Policy(0.85, 0.3, 1, 0.2);
    var start := Books(10, [Quota("hot", 0, 4), Quota("idle", 0, 100)], [], map[], map[]);
    var b := start.(poolUse := map["hot" := 4]);
    HotAcquires();
    HotCascades();
    assert IsSlack(p, LoadOf(b, 1));
    assert Headroom(LoadOf(b, 1)) == 100;
    assert StaysOver(p, b, 1);
    RebalanceRaisesIff(p, b);
  }

  lemma HotAcquires()
    ensures var start := Books(10, [Quota("hot", 0, 4), Quota("idle", 0, 100)], [], map[], map[]);
      var b := start.(poolUse := map["hot" := 4]);
      && ValidConfig(10, start.pools, start.tenants) && Good(b)
      && Step(start, Acquire("hot", 4, None)) == (b, Ok(Allowed))
  {
    var pools := [Quota("hot", 0, 4), Quota("idle", 0, 100)];
    assert pools[1..] == [Quota("idle", 0, 100)] && pools[1..][1..] == [];
  }

  lemma HotCascades()
    ensures var pools := [Quota("hot", 0, 4), Quota("idle", 0, 100)];
      Cascades(Policy(0.85, 0.3, 1, 0.2), Loads(pools, map["hot" := 4]))
  {
    var p, pools := Policy(0.85, 0.3, 1, 0.2), [Quota("hot", 0, 4), Quota("idle", 0, 100)];
    var ls := Loads(pools, map["hot" := 4]);
    assert ls == [Load(pools[0], 4), Load(pools[1], 0)];
    assert IsStressed(p, ls[0]) && IsSlack(p, ls[1]);
    assert ls[..1] == [ls[0]] && ls[..1][..0] == [];
    assert Stressed(p, ls[..1]) == [ls[0]];
  }

  // ----- the order changes are applied in -----

  /** No ceiling is moved after a burst, and among either no cap is lowered after one is raised. */
  lemma {:induction false} PlanInOrder(d: Rebalancer.Decision, i: nat, j: nat)
    requires i < j < |PlanOf(d)|
    ensures PlanOf(d)[i].AdjustBurst? ==> PlanOf(d)[j].AdjustBurst?
    ensures PlanOf(d)[i].AdjustCeiling? && PlanOf(d)[j].AdjustCeiling? ==>
      exists a, b :: 0 <= a < |d.pools| && 0 <= b < |d.pools| && Raises(d.pools[a]) <= Raises(d.pools[b])
        && PlanOf(d)[i] == AdjustCeiling(d.pools[a].key, d.pools[a].newCap)
        && PlanOf(d)[j] == AdjustCeiling(d.pools[b].key, d.pools[b].newCap)
    ensures PlanOf(d)[i].AdjustBurst? && PlanOf(d)[j].AdjustBurst? ==>
      exists a, b :: 0 <= a < |d.tenants| && 0 <= b < |d.tenants| && Raises(d.tenants[a]) <= Raises(d.tenants[b])
        && PlanOf(d)[i] == AdjustBurst(d.tenants[a].key.0, d.tenants[a].key.1, d.tenants[a].newCap)
        && PlanOf(d)[j] == AdjustBurst(d.tenants[b].key.0, d.tenants[b].key.1, d.tenants[b].newCap)
  {
    hide Shrinks, Grows;
    var xs, ys := Shrinks(d.pools) + Grows(d.pools), Shrinks(d.tenants) + Grows(d.tenants);
    if j < |xs| {
      var a, b := LoweredFirst(d.pools, i, j);
    } else if i >= |xs| {
      var a, b := LoweredFirst(d.tenants, i - |xs|, j - |xs|);
    }
  }

  function Raises<K>(c: Change<K>): nat {
    if c.newCap > c.oldCap then 1 else 0
  }

  lemma LoweredFirst<K>(cs: seq<Change<K>>, i: nat, j: nat) returns (a: nat, b: nat)
    requires i < j < |Shrinks(cs) + Grows(cs)|
    ensures a < |cs| && b < |cs| && Raises(cs[a]) <= Raises(cs[b])
    ensures (Shrinks(cs) + Grows(cs))[i] == cs[a] && (Shrinks(cs) + Grows(cs))[j] == cs[b]
  {
    hide Shrinks, Grows;
    if i < |Shrinks(cs)| {
      a := ShrinksOrigin(cs, i);
    } else {
      a := GrowsOrigin(cs, i - |Shrinks(cs)|);
    }
    if j < |Shrinks(cs)| {
      b := ShrinksOrigin(cs, j);
    } else {
      b := GrowsOrigin(cs, j - |Shrinks(cs)|);
    }
  }

  // ----- long runs -----

  /** Refused operations leave a fitting controller fitting, too. */
  lemma {:induction false} FitsKept(b: Books, ops: seq<Op>)
    requires Distinct(b.pools) && Fits(b)
    ensures Distinct(RunOps(b, ops).pools) && Fits(RunOps(b, ops))
    decreases |ops|
  {
    hide Distinct, Fits, Step;
    if ops != [] {
      StepFits(b, ops[0]);
      FitsKept(Step(b, ops[0]).0, ops[1..]);
    }
  }

  datatype Event = Operation(op: Op) | Rebalance(policy: Policy)

  ghost predicate ValidEvents(events: seq<Event>) {
    forall i :: 0 <= i < |events| && events[i].Rebalance? ==> ValidPolicy(events[i].policy)
  }

  /** The controller after a run; a refused operation and a rebalance that raises leave what they leave. */
  ghost function After(b: Books, events: seq<Event>): Books
    requires ValidEvents(events)
    decreases |events|
  {
    if events == [] then b else After(Once(b, events[0]), events[1..])
  }

  ghost function Once(b: Books, e: Event): Books
    requires e.Rebalance? ==> ValidPolicy(e.policy)
  {
    match e
    case Operation(op) => Step(b, op).0
    case Rebalance(p) => ApplyAll(b, PlanOf(Evaluate(p, b))).0
  }

  ghost predicate NoneRaises(b: Books, events: seq<Event>)
    requires ValidEvents(events)
    decreases |events|
  {
    events == [] || (
      && (events[0].Rebalance? ==> ApplyAll(b, PlanOf(Evaluate(events[0].policy, b))).1.None?)
      && NoneRaises(Once(b, events[0]), events[1..]))
  }

  /** From a controller whose ceilings fit, any interleaving of acquires, releases, adjustments, refused ones
      included, and rebalances under any policies keeps every capacity bound and keeps the ceilings fitting,
      and no rebalance in it ever raises. */
  lemma {:induction false} LongRunIsSafe(b: Books, events: seq<Event>)
    requires Good(b) && Fits(b) && ValidEvents(events)
    ensures Good(After(b, events)) && Fits(After(b, events)) && NoneRaises(b, events)
    decreases |events|
  {
    hide Good, Fits, Once, Step, ApplyAll, PlanOf, Evaluate;
    if events != [] {
      OnceIsSafe(b, events[0]);
      LongRunIsSafe(Once(b, events[0]), events[1..]);
    }
  }

  lemma OnceIsSafe(b: Books, e: Event)
    requires Good(b) && Fits(b) && (e.Rebalance? ==> ValidPolicy(e.policy))
    ensures Good(Once(b, e)) && Fits(Once(b, e))
    ensures e.Rebalance? ==> ApplyAll(b, PlanOf(Evaluate(e.policy, b))).1.None?
  {
    hide Good, Fits, Step, ApplyAll, PlanOf, Evaluate;
    match e
    case Operation(op) =>
      GoodDistinct(b);
      StepFits(b, op);
      RunGood(b, [op]);
      assert [op][1..] == [];
      assert RunOps(b, [op]) == RunOps(Step(b, op).0, []);
    case Rebalance(p) =>
      RebalanceIsSafe(p, b, "");
  }
}
