/** The capacity rebalancer: find stressed and slack quotas, draft cap changes that move unused
    headroom from slack to stressed, and apply them to a budget controller, shrinks first. */
module Rebalancer {
  import opened Common
  import opened Quotas
  import opened Budgets
  import opened Allocation

  datatype Policy = Policy(stress: real, slack: real, minStressed: int, fraction: real)

  ghost predicate ValidPolicy(p: Policy) {
    0.0 < p.slack < p.stress <= 1.0 && 0.0 < p.fraction <= 1.0 && p.minStressed >= 1
  }

  /** A quota and what is in flight under it. */
  datatype Load<K> = Load(q: Quota<K>, inFlight: int)

  datatype Change<K> = Change(key: K, oldCap: int, newCap: int)

  datatype Signals = Signals(
    stressed: seq<Load<string>>,
    slack: seq<Load<string>>,
    cascading: bool,
    tenantStressed: seq<Load<(string, string)>>,
    tenantSlack: seq<Load<(string, string)>>,
    tenantCascading: bool)

  datatype Decision = Decision(pools: seq<Change<string>>, tenants: seq<Change<(string, string)>>)

  // ----- reading the load -----

  function Utilization<K>(l: Load<K>): real {
    if l.q.cap <= 0 then 0.0 else l.inFlight as real / l.q.cap as real
  }

  function Headroom<K>(l: Load<K>): nat {
    Max(0, l.q.cap - Max(l.q.floor, l.inFlight))
  }

  function Excess<K>(l: Load<K>): nat {
    Max(0, l.inFlight - l.q.cap)
  }

  predicate IsStressed<K>(p: Policy, l: Load<K>) {
    Utilization(l) >= p.stress
  }

  predicate IsSlack<K>(p: Policy, l: Load<K>) {
    !IsStressed(p, l) && Utilization(l) <= p.slack
  }

  function Stressed<K>(p: Policy, ls: seq<Load<K>>): seq<Load<K>> {
    if ls == [] then []
    else Stressed(p, ls[..|ls| - 1]) + if IsStressed(p, ls[|ls| - 1]) then [ls[|ls| - 1]] else []
  }

  function Slack<K>(p: Policy, ls: seq<Load<K>>): seq<Load<K>> {
    if ls == [] then []
    else Slack(p, ls[..|ls| - 1]) + if IsSlack(p, ls[|ls| - 1]) then [ls[|ls| - 1]] else []
  }

  /** Enough stressed quotas, and at least one slack one to draw from. */
  predicate Cascades<K>(p: Policy, ls: seq<Load<K>>) {
    |Stressed(p, ls)| >= p.minStressed && |Slack(p, ls)| >= 1
  }

  function Loads<K(==)>(qs: seq<Quota<K>>, use: map<K, int>): (ls: seq<Load<K>>)
    ensures |ls| == |qs|
    ensures forall i :: 0 <= i < |qs| ==> ls[i] == Load(qs[i], Use(use, qs[i].key))
  {
    seq(|qs|, i requires 0 <= i < |qs| => Load(qs[i], Use(use, qs[i].key)))
  }

  function InPool(ls: seq<Load<(string, string)>>, pool: string): seq<Load<(string, string)>> {
    if ls == [] then []
    else InPool(ls[..|ls| - 1], pool) + if ls[|ls| - 1].q.key.0 == pool then [ls[|ls| - 1]] else []
  }

  ghost predicate DistinctLoads<K>(ls: seq<Load<K>>) {
    forall i, j :: 0 <= i < j < |ls| ==> ls[i].q.key != ls[j].q.key
  }

  lemma {:induction false} StressedOrigin<K>(p: Policy, ls: seq<Load<K>>, i: nat) returns (j: nat)
    requires i < |Stressed(p, ls)|
    ensures j < |ls| && ls[j] == Stressed(p, ls)[i] && IsStressed(p, ls[j])
  {
    if i < |Stressed(p, ls[..|ls| - 1])| {
      j := StressedOrigin(p, ls[..|ls| - 1], i);
    } else {
      j := |ls| - 1;
    }
  }

  lemma {:induction false} SlackOrigin<K>(p: Policy, ls: seq<Load<K>>, i: nat) returns (j: nat)
    requires i < |Slack(p, ls)|
    ensures j < |ls| && ls[j] == Slack(p, ls)[i] && IsSlack(p, ls[j])
  {
    if i < |Slack(p, ls[..|ls| - 1])| {
      j := SlackOrigin(p, ls[..|ls| - 1], i);
    } else {
      j := |ls| - 1;
    }
  }

  lemma {:induction false} InPoolOrigin(ls: seq<Load<(string, string)>>, pool: string, i: nat) returns (j: nat)
    requires i < |InPool(ls, pool)|
    ensures j < |ls| && ls[j] == InPool(ls, pool)[i] && ls[j].q.key.0 == pool
  {
    if i < |InPool(ls[..|ls| - 1], pool)| {
      j := InPoolOrigin(ls[..|ls| - 1], pool, i);
    } else {
      j := |ls| - 1;
    }
  }

  lemma {:induction false} StressedDistinct<K>(p: Policy, ls: seq<Load<K>>)
    requires DistinctLoads(ls)
    ensures DistinctLoads(Stressed(p, ls))
  {
    if ls != [] {
      var init := ls[..|ls| - 1];
      StressedDistinct(p, init);
      forall i | 0 <= i < |Stressed(p, init)| ensures Stressed(p, init)[i].q.key != ls[|ls| - 1].q.key {
        var j := StressedOrigin(p, init, i);
        assert ls[j] == init[j];
      }
    }
  }

  lemma {:induction false} SlackDistinct<K>(p: Policy, ls: seq<Load<K>>)
    requires DistinctLoads(ls)
    ensures DistinctLoads(Slack(p, ls))
  {
    if ls != [] {
      var init := ls[..|ls| - 1];
      SlackDistinct(p, init);
      forall i | 0 <= i < |Slack(p, init)| ensures Slack(p, init)[i].q.key != ls[|ls| - 1].q.key {
        var j := SlackOrigin(p, init, i);
        assert ls[j] == init[j];
      }
    }
  }

  lemma {:induction false} InPoolDistinct(ls: seq<Load<(string, string)>>, pool: string)
    requires DistinctLoads(ls)
    ensures DistinctLoads(InPool(ls, pool))
  {
    if ls != [] {
      var init := ls[..|ls| - 1];
      InPoolDistinct(init, pool);
      forall i | 0 <= i < |InPool(init, pool)| ensures InPool(init, pool)[i].q.key != ls[|ls| - 1].q.key {
        var j := InPoolOrigin(init, pool, i);
        assert ls[j] == init[j];
      }
    }
  }

  /** No quota is both stressed and slack. */
  lemma StressedApartFromSlack<K>(p: Policy, ls: seq<Load<K>>)
    requires DistinctLoads(ls)
    ensures forall i, j :: 0 <= i < |Stressed(p, ls)| && 0 <= j < |Slack(p, ls)| ==>
      Stressed(p, ls)[i].q.key != Slack(p, ls)[j].q.key
  {
    forall i, j | 0 <= i < |Stressed(p, ls)| && 0 <= j < |Slack(p, ls)|
      ensures Stressed(p, ls)[i].q.key != Slack(p, ls)[j].q.key
    {
      var a := StressedOrigin(p, ls, i);
      var b := SlackOrigin(p, ls, j);
      assert a != b;
    }
  }

  // ----- drafting changes -----

  function HeadroomItems<K>(ls: seq<Load<K>>): (r: seq<(K, nat)>)
    ensures |r| == |ls| && forall i :: 0 <= i < |ls| ==> r[i] == (ls[i].q.key, Headroom(ls[i]))
  {
    seq(|ls|, i requires 0 <= i < |ls| => (ls[i].q.key, Headroom(ls[i])))
  }

  function ExcessItems<K>(ls: seq<Load<K>>): (r: seq<(K, nat)>)
    ensures |r| == |ls| && forall i :: 0 <= i < |ls| ==> r[i] == (ls[i].q.key, Excess(ls[i]))
  {
    seq(|ls|, i requires 0 <= i < |ls| => (ls[i].q.key, Excess(ls[i])))
  }

  function TransferFor<K(==)>(p: Policy, ls: seq<Load<K>>): Option<Transfer<K>>
    requires ValidPolicy(p)
  {
    Share(HeadroomItems(Slack(p, ls)), ExcessItems(Stressed(p, ls)), p.fraction)
  }

  /** The quota a change is about, as the controller holds it; an unknown key never occurs. */
  function QuotaOf<K(==)>(qs: seq<Quota<K>>, k: K): Quota<K> {
    var q := Find(qs, k);
    if q.Some? then q.value else Quota(k, 0, 0)
  }

  /** A donor's new cap: its donation less, but never below floor or in-flight. */
  function DonorChange<K(==)>(qs: seq<Quota<K>>, use: map<K, int>, d: (K, nat)): Change<K> {
    var q := QuotaOf(qs, d.0);
    Change(d.0, q.cap, Max(Max(q.cap - d.1, q.floor), Use(use, d.0)))
  }

  /** A recipient's new cap: its share more, up to the limit where there is one. */
  function RecipientChange<K(==)>(qs: seq<Quota<K>>, limit: K -> Option<int>, d: (K, nat)): Change<K> {
    var q := QuotaOf(qs, d.0);
    Change(d.0, q.cap, if limit(d.0).Some? then Min(q.cap + d.1, limit(d.0).value) else q.cap + d.1)
  }

  /** The changes that move something, in order. */
  function DonorChanges<K(==)>(qs: seq<Quota<K>>, use: map<K, int>, ds: Dict<K>): seq<Change<K>> {
    if ds == [] then []
    else
      var c := DonorChange(qs, use, ds[|ds| - 1]);
      DonorChanges(qs, use, ds[..|ds| - 1]) + if c.newCap != c.oldCap then [c] else []
  }

  function RecipientChanges<K(==)>(qs: seq<Quota<K>>, limit: K -> Option<int>, ds: Dict<K>): seq<Change<K>> {
    if ds == [] then []
    else
      var c := RecipientChange(qs, limit, ds[|ds| - 1]);
      RecipientChanges(qs, limit, ds[..|ds| - 1]) + if c.newCap != c.oldCap then [c] else []
  }

  /** The changes a transfer makes. */
  function ChangesOf<K(==)>(qs: seq<Quota<K>>, use: map<K, int>, limit: K -> Option<int>, t: Transfer<K>)
    : seq<Change<K>>
  {
    DonorChanges(qs, use, t.donors) + RecipientChanges(qs, limit, t.recipients)
  }

  function Draft<K(==)>(p: Policy, ls: seq<Load<K>>, qs: seq<Quota<K>>, use: map<K, int>, limit: K -> Option<int>)
    : seq<Change<K>>
    requires ValidPolicy(p)
  {
    if !Cascades(p, ls) || TransferFor(p, ls).None? then []
    else
      var t := TransferFor(p, ls).value;
      ChangesOf(qs, use, limit, t)
  }

  /** The most a pool's ceiling may be beside the other pools' reserved floors. */
  function Room(b: Books): string -> Option<int> {
    k => Some(b.total - OtherFloors(b.pools, k))
  }

  function NoLimit(): ((string, string)) -> Option<int> {
    k => None
  }

  function PoolDraft(p: Policy, b: Books): seq<Change<string>>
    requires ValidPolicy(p)
  {
    Draft(p, Loads(b.pools, b.poolUse), b.pools, b.poolUse, Room(b))
  }

  /** The stressed, then the slack tenants. */
  function MarkedTenants(p: Policy, b: Books): seq<Load<(string, string)>> {
    var ls := Loads(b.tenants, b.tenantUse);
    Stressed(p, ls) + Slack(p, ls)
  }

  function TenantDraftIn(p: Policy, b: Books, pool: string): seq<Change<(string, string)>>
    requires ValidPolicy(p)
  {
    Draft(p, InPool(MarkedTenants(p, b), pool), b.tenants, b.tenantUse, NoLimit())
  }

  /** Each pool's tenants on their own, in pool order. */
  function TenantDraft(p: Policy, b: Books, pools: seq<Pool>): seq<Change<(string, string)>>
    requires ValidPolicy(p)
  {
    if pools == [] then []
    else TenantDraft(p, b, pools[..|pools| - 1]) + TenantDraftIn(p, b, pools[|pools| - 1].key)
  }

  ghost predicate TenantsCascade(p: Policy, b: Books) {
    exists pool :: Cascades(p, InPool(Loads(b.tenants, b.tenantUse), pool))
  }

  ghost function Evaluate(p: Policy, b: Books): Decision
    requires ValidPolicy(p)
  {
    Decision(PoolDraft(p, b), if TenantsCascade(p, b) then TenantDraft(p, b, b.pools) else [])
  }

  // ----- applying changes -----

  function Shrinks<K>(cs: seq<Change<K>>): seq<Change<K>> {
    if cs == [] then []
    else Shrinks(cs[..|cs| - 1]) + if cs[|cs| - 1].newCap < cs[|cs| - 1].oldCap then [cs[|cs| - 1]] else []
  }

  function Grows<K>(cs: seq<Change<K>>): seq<Change<K>> {
    if cs == [] then []
    else Grows(cs[..|cs| - 1]) + if cs[|cs| - 1].newCap > cs[|cs| - 1].oldCap then [cs[|cs| - 1]] else []
  }

  function CeilingOps(cs: seq<Change<string>>): (ops: seq<Op>)
    ensures |ops| == |cs| && forall i :: 0 <= i < |cs| ==> ops[i] == AdjustCeiling(cs[i].key, cs[i].newCap)
  {
    seq(|cs|, i requires 0 <= i < |cs| => AdjustCeiling(cs[i].key, cs[i].newCap))
  }

  function BurstOps(cs: seq<Change<(string, string)>>): (ops: seq<Op>)
    ensures |ops| == |cs| && forall i :: 0 <= i < |cs| ==> ops[i] == AdjustBurst(cs[i].key.0, cs[i].key.1, cs[i].newCap)
  {
    seq(|cs|, i requires 0 <= i < |cs| => AdjustBurst(cs[i].key.0, cs[i].key.1, cs[i].newCap))
  }

  /** The operations in the order they are applied: ceilings before bursts, shrinks before grows. */
  function PlanOf(d: Decision): seq<Op> {
    CeilingOps(Shrinks(d.pools) + Grows(d.pools)) + BurstOps(Shrinks(d.tenants) + Grows(d.tenants))
  }

  /** Apply operations until one raises; what landed before stays. */
  function ApplyAll(b: Books, ops: seq<Op>): (Books, Option<Error>)
    decreases |ops|
  {
    if ops == [] then (b, None)
    else
      var s := Step(b, ops[0]);
      if s.1.Err? then (s.0, Some(s.1.error)) else ApplyAll(s.0, ops[1..])
  }

  lemma {:induction false} ApplyAllGood(b: Books, ops: seq<Op>)
    requires Good(b)
    ensures Good(ApplyAll(b, ops).0)
    decreases |ops|
  {
    hide Good, Step;
    if ops != [] {
      RunGood(b, [ops[0]]);
      assert RunOps(b, [ops[0]]) == RunOps(Step(b, ops[0]).0, [ops[0]][1..]);
      ApplyAllGood(Step(b, ops[0]).0, ops[1..]);
    }
  }

  lemma {:induction false} ApplyAllAppend(b: Books, xs: seq<Op>, ys: seq<Op>)
    ensures ApplyAll(b, xs + ys)
      == if ApplyAll(b, xs).1.Some? then ApplyAll(b, xs) else ApplyAll(ApplyAll(b, xs).0, ys)
    decreases |xs|
  {
    hide Step;
    if xs == [] {
      assert xs + ys == ys;
    } else {
      assert (xs + ys)[1..] == xs[1..] + ys;
      ApplyAllAppend(Step(b, xs[0]).0, xs[1..], ys);
    }
  }

  // ----- what a list of changes does -----

  ghost predicate DistinctChanges<K>(cs: seq<Change<K>>) {
    forall i, j :: 0 <= i < j < |cs| ==> cs[i].key != cs[j].key
  }

  function SumDelta<K>(cs: seq<Change<K>>, sel: K -> bool): int {
    if cs == [] then 0
    else
      var c := cs[|cs| - 1];
      SumDelta(cs[..|cs| - 1], sel) + if sel(c.key) then c.newCap - c.oldCap else 0
  }

  /** The change is about a known quota, starts from its cap, and respects its floor and in-flight. */
  ghost predicate Sound<K>(qs: seq<Quota<K>>, use: map<K, int>, c: Change<K>) {
    var q := Find(qs, c.key);
    && q.Some? && q.value.cap == c.oldCap
    && c.newCap >= 0 && c.newCap >= q.value.floor && c.newCap >= Use(use, c.key)
  }

  ghost predicate AllSound<K>(qs: seq<Quota<K>>, use: map<K, int>, cs: seq<Change<K>>) {
    forall i :: 0 <= i < |cs| ==> Sound(qs, use, cs[i])
  }

  /** Same keys and floors; only caps may differ. */
  ghost predicate OnlyCaps<K>(qs: seq<Quota<K>>, rs: seq<Quota<K>>) {
    |qs| == |rs| && forall i :: 0 <= i < |qs| ==> qs[i].key == rs[i].key && qs[i].floor == rs[i].floor
  }

  lemma {:induction false} SumDeltaCons<K>(cs: seq<Change<K>>, sel: K -> bool)
    requires cs != []
    ensures SumDelta(cs, sel) == (if sel(cs[0].key) then cs[0].newCap - cs[0].oldCap else 0) + SumDelta(cs[1..], sel)
  {
    if |cs| > 1 {
      SumDeltaCons(cs[..|cs| - 1], sel);
      assert cs[..|cs| - 1][1..] == cs[1..][..|cs| - 2];
    }
  }

  lemma {:induction false} SumDeltaAppend<K>(a: seq<Change<K>>, b: seq<Change<K>>, sel: K -> bool)
    ensures SumDelta(a + b, sel) == SumDelta(a, sel) + SumDelta(b, sel)
  {
    if b == [] {
      assert a + b == a;
    } else {
      SumDeltaAppend(a, b[..|b| - 1], sel);
      assert (a + b)[..|a + b| - 1] == a + b[..|b| - 1];
    }
  }

  /** A sound ceiling change lands unless it would oversubscribe the total. */
  lemma OneCeiling(b: Books, c: Change<string>)
    requires Sound(b.pools, b.poolUse, c)
    ensures Step(b, AdjustCeiling(c.key, c.newCap)) ==
      if c.newCap + OtherFloors(b.pools, c.key) <= b.total
      then (b.(pools := SetCap(b.pools, c.key, c.newCap)), Ok(Allowed))
      else (b, Err(Oversubscribed(OtherFloors(b.pools, c.key))))
  {
    hide AcquireStep, ReleaseStep, AdjustBurstStep, SetCap;
  }

  ghost predicate Fitting(b: Books, cs: seq<Change<string>>) {
    forall i :: 0 <= i < |cs| ==> cs[i].newCap + OtherFloors(b.pools, cs[i].key) <= b.total
  }

  lemma FittingCons(b: Books, r: Books, cs: seq<Change<string>>)
    requires cs != [] && r.total == b.total
    requires forall k :: OtherFloors(r.pools, k) == OtherFloors(b.pools, k)
    requires cs[0].newCap + OtherFloors(b.pools, cs[0].key) <= b.total
    ensures Fitting(b, cs) <==> Fitting(r, cs[1..])
  {
    if Fitting(r, cs[1..]) {
      forall i | 0 <= i < |cs| ensures cs[i].newCap + OtherFloors(b.pools, cs[i].key) <= b.total {
        assert i > 0 ==> cs[i] == cs[1..][i - 1];
      }
    }
  }

  lemma SetCapOnlyCaps<K>(qs: seq<Quota<K>>, k: K, cap: int)
    ensures OnlyCaps(qs, SetCap(qs, k, cap))
    ensures forall other :: OtherFloors(SetCap(qs, k, cap), other) == OtherFloors(qs, other)
    ensures Distinct(qs) ==> Distinct(SetCap(qs, k, cap))
  {
    SetCapAt(qs, k, cap);
    forall other ensures OtherFloors(SetCap(qs, k, cap), other) == OtherFloors(qs, other) {
      SetCapFind(qs, k, cap, other);
    }
  }

  /** A list of sound changes to distinct pools raises exactly when one of them would oversubscribe
      the total; otherwise every ceiling moves by its change and nothing else moves. */
  lemma {:induction false} CeilingsLand(b: Books, cs: seq<Change<string>>, sel: string -> bool)
    requires Distinct(b.pools) && DistinctChanges(cs) && AllSound(b.pools, b.poolUse, cs)
    ensures
      var r := ApplyAll(b, CeilingOps(cs));
      && (r.1.None? <==> Fitting(b, cs))
      && OnlyCaps(b.pools, r.0.pools)
      && r.0 == b.(pools := r.0.pools)
      && (r.1.None? ==> SumCaps(r.0.pools, sel) == SumCaps(b.pools, sel) + SumDelta(cs, sel))
    decreases |cs|
  {
    hide Step, Sound, OtherFloors, SetCap, Distinct;
    if cs != [] {
      var c := cs[0];
      assert Sound(b.pools, b.poolUse, c);
      OneCeiling(b, c);
      if c.newCap + OtherFloors(b.pools, c.key) <= b.total {
        var next := b.(pools := SetCap(b.pools, c.key, c.newCap));
        assert CeilingOps(cs)[1..] == CeilingOps(cs[1..]);
        StillSound(b.pools, b.poolUse, cs);
        SetCapOnlyCaps(b.pools, c.key, c.newCap);
        CeilingsLand(next, cs[1..], sel);
        LandedDelta(b.pools, b.poolUse, cs, sel);
        FittingCons(b, next, cs);
      }
    }
  }

  lemma LandedDelta<K>(qs: seq<Quota<K>>, use: map<K, int>, cs: seq<Change<K>>, sel: K -> bool)
    requires Distinct(qs) && cs != [] && Sound(qs, use, cs[0])
    ensures SumCaps(SetCap(qs, cs[0].key, cs[0].newCap), sel) + SumDelta(cs[1..], sel)
      == SumCaps(qs, sel) + SumDelta(cs, sel)
  {
    SetCapSum(qs, cs[0].key, cs[0].newCap, sel);
    SumDeltaCons(cs, sel);
  }

  lemma StillSound<K>(qs: seq<Quota<K>>, use: map<K, int>, cs: seq<Change<K>>)
    requires cs != [] && DistinctChanges(cs) && AllSound(qs, use, cs)
    ensures DistinctChanges(cs[1..]) && AllSound(SetCap(qs, cs[0].key, cs[0].newCap), use, cs[1..])
  {
    forall i | 0 <= i < |cs[1..]| ensures Sound(SetCap(qs, cs[0].key, cs[0].newCap), use, cs[1..][i]) {
      assert Sound(qs, use, cs[i + 1]);
      SetCapFind(qs, cs[0].key, cs[0].newCap, cs[i + 1].key);
    }
  }

  lemma OneBurst(b: Books, c: Change<(string, string)>)
    requires Sound(b.tenants, b.tenantUse, c)
    ensures Step(b, AdjustBurst(c.key.0, c.key.1, c.newCap))
      == (b.(tenants := SetCap(b.tenants, c.key, c.newCap)), Ok(Allowed))
  {
    hide AcquireStep, ReleaseStep, AdjustCeilingStep, SetCap;
    assert (c.key.0, c.key.1) == c.key;
  }

  /** A list of sound changes to distinct tenant budgets never raises. */
  lemma {:induction false} BurstsLand(b: Books, cs: seq<Change<(string, string)>>, sel: ((string, string)) -> bool)
    requires Distinct(b.tenants) && DistinctChanges(cs) && AllSound(b.tenants, b.tenantUse, cs)
    ensures
      var r := ApplyAll(b, BurstOps(cs));
      && r.1.None?
      && OnlyCaps(b.tenants, r.0.tenants)
      && r.0 == b.(tenants := r.0.tenants)
      && SumCaps(r.0.tenants, sel) == SumCaps(b.tenants, sel) + SumDelta(cs, sel)
    decreases |cs|
  {
    hide Step, Sound, OtherFloors, SetCap, Distinct;
    if cs != [] {
      var c := cs[0];
      assert Sound(b.tenants, b.tenantUse, c);
      OneBurst(b, c);
      assert BurstOps(cs)[1..] == BurstOps(cs[1..]);
      StillSound(b.tenants, b.tenantUse, cs);
      SetCapOnlyCaps(b.tenants, c.key, c.newCap);
      BurstsLand(b.(tenants := SetCap(b.tenants, c.key, c.newCap)), cs[1..], sel);
      LandedDelta(b.tenants, b.tenantUse, cs, sel);
    }
  }

  // ----- reordering changes: shrinks first -----

  lemma {:induction false} ShrinksOrigin<K>(cs: seq<Change<K>>, i: nat) returns (j: nat)
    requires i < |Shrinks(cs)|
    ensures j < |cs| && cs[j] == Shrinks(cs)[i] && cs[j].newCap < cs[j].oldCap
  {
    if i < |Shrinks(cs[..|cs| - 1])| {
      j := ShrinksOrigin(cs[..|cs| - 1], i);
    } else {
      j := |cs| - 1;
    }
  }

  lemma {:induction false} GrowsOrigin<K>(cs: seq<Change<K>>, i: nat) returns (j: nat)
    requires i < |Grows(cs)|
    ensures j < |cs| && cs[j] == Grows(cs)[i] && cs[j].newCap > cs[j].oldCap
  {
    if i < |Grows(cs[..|cs| - 1])| {
      j := GrowsOrigin(cs[..|cs| - 1], i);
    } else {
      j := |cs| - 1;
    }
  }

  lemma {:induction false} ShrinksDistinct<K>(cs: seq<Change<K>>)
    requires DistinctChanges(cs)
    ensures DistinctChanges(Shrinks(cs)) && DistinctChanges(Grows(cs))
  {
    if cs != [] {
      var init := cs[..|cs| - 1];
      ShrinksDistinct(init);
      forall i | 0 <= i < |Shrinks(init)| ensures Shrinks(init)[i].key != cs[|cs| - 1].key {
        var j := ShrinksOrigin(init, i);
        assert cs[j] == init[j];
      }
      forall i | 0 <= i < |Grows(init)| ensures Grows(init)[i].key != cs[|cs| - 1].key {
        var j := GrowsOrigin(init, i);
        assert cs[j] == init[j];
      }
    }
  }

  lemma SumDeltaSnoc<K>(cs: seq<Change<K>>, c: Change<K>, sel: K -> bool)
    ensures SumDelta(cs + [c], sel) == SumDelta(cs, sel) + if sel(c.key) then c.newCap - c.oldCap else 0
  {
    assert (cs + [c])[..|cs|] == cs;
  }

  lemma {:induction false} ReorderedDelta<K>(cs: seq<Change<K>>, sel: K -> bool)
    ensures SumDelta(Shrinks(cs), sel) + SumDelta(Grows(cs), sel) == SumDelta(cs, sel)
  {
    if cs != [] {
      var init, last := cs[..|cs| - 1], cs[|cs| - 1];
      ReorderedDelta(init, sel);
      assert Shrinks(cs) == if last.newCap < last.oldCap then Shrinks(init) + [last] else Shrinks(init);
      assert Grows(cs) == if last.newCap > last.oldCap then Grows(init) + [last] else Grows(init);
      SumDeltaSnoc(Shrinks(init), last, sel);
      SumDeltaSnoc(Grows(init), last, sel);
    }
  }

  lemma Reordered<K>(qs: seq<Quota<K>>, use: map<K, int>, cs: seq<Change<K>>, sel: K -> bool)
    requires DistinctChanges(cs) && AllSound(qs, use, cs)
    ensures
      var r := Shrinks(cs) + Grows(cs);
      DistinctChanges(r) && AllSound(qs, use, r) && SumDelta(r, sel) == SumDelta(cs, sel)
  {
    var r := Shrinks(cs) + Grows(cs);
    ShrinksDistinct(cs);
    SumDeltaAppend(Shrinks(cs), Grows(cs), sel);
    ReorderedDelta(cs, sel);
    forall i | 0 <= i < |r| ensures Sound(qs, use, r[i]) {
      var j := ReorderedOrigin(cs, i);
    }
    forall i, j | 0 <= i < |Shrinks(cs)| && 0 <= j < |Grows(cs)| ensures Shrinks(cs)[i].key != Grows(cs)[j].key {
      var a := ShrinksOrigin(cs, i);
      var d := GrowsOrigin(cs, j);
      assert a != d;
    }
  }

  lemma ReorderedOrigin<K>(cs: seq<Change<K>>, i: nat) returns (j: nat)
    requires i < |Shrinks(cs) + Grows(cs)|
    ensures j < |cs| && cs[j] == (Shrinks(cs) + Grows(cs))[i]
  {
    if i < |Shrinks(cs)| {
      j := ShrinksOrigin(cs, i);
    } else {
      j := GrowsOrigin(cs, i - |Shrinks(cs)|);
    }
  }

  // ----- what a draft is worth -----

  /** The donation is positive and leaves the donor at or above its floor and in-flight. */
  ghost predicate Backed<K>(qs: seq<Quota<K>>, use: map<K, int>, d: (K, nat)) {
    var q := Find(qs, d.0);
    && q.Some? && d.1 > 0
    && 0 <= q.value.floor && d.1 <= q.value.cap - Max(q.value.floor, Use(use, d.0))
  }

  lemma DonorSound<K>(qs: seq<Quota<K>>, use: map<K, int>, d: (K, nat))
    requires Backed(qs, use, d)
    ensures
      var c := DonorChange(qs, use, d);
      Sound(qs, use, c) && c.key == d.0 && c.newCap == c.oldCap - d.1 && d.1 > 0
  {
  }

  lemma {:induction false} DonorsPointwise<K>(qs: seq<Quota<K>>, use: map<K, int>, ds: Dict<K>)
    requires forall i :: 0 <= i < |ds| ==> Backed(qs, use, ds[i])
    ensures |DonorChanges(qs, use, ds)| == |ds|
    ensures forall i :: 0 <= i < |ds| ==> DonorChanges(qs, use, ds)[i] == DonorChange(qs, use, ds[i])
  {
    hide Backed, Sound, DonorChange;
    if ds != [] {
      DonorsPointwise(qs, use, ds[..|ds| - 1]);
      DonorSound(qs, use, ds[|ds| - 1]);
    }
  }

  lemma {:induction false} DonorsDelta<K>(qs: seq<Quota<K>>, use: map<K, int>, ds: Dict<K>, sel: K -> bool)
    requires forall i :: 0 <= i < |ds| ==> Backed(qs, use, ds[i]) && sel(ds[i].0)
    ensures SumDelta(DonorChanges(qs, use, ds), sel) + Sum(ds) == 0
  {
    hide Backed, Sound, DonorChange;
    if ds != [] {
      var init, last := ds[..|ds| - 1], ds[|ds| - 1];
      DonorsDelta(qs, use, init, sel);
      SumSnoc(ds);
      DonorSound(qs, use, last);
      SumDeltaSnoc(DonorChanges(qs, use, init), DonorChange(qs, use, last), sel);
    }
  }

  lemma DonorsLand<K>(qs: seq<Quota<K>>, use: map<K, int>, ds: Dict<K>, sel: K -> bool)
    requires forall i :: 0 <= i < |ds| ==> Backed(qs, use, ds[i]) && sel(ds[i].0)
    ensures
      var cs := DonorChanges(qs, use, ds);
      && |cs| == |ds| && AllSound(qs, use, cs)
      && (forall i :: 0 <= i < |ds| ==> cs[i].key == ds[i].0 && cs[i].newCap < cs[i].oldCap)
      && SumDelta(cs, sel) + Sum(ds) == 0
  {
    hide Backed, Sound, DonorChange, DonorChanges, SumDelta, Sum;
    var cs := DonorChanges(qs, use, ds);
    DonorsPointwise(qs, use, ds);
    DonorsDelta(qs, use, ds, sel);
    forall i | 0 <= i < |ds| ensures Sound(qs, use, cs[i]) && cs[i].key == ds[i].0 && cs[i].newCap < cs[i].oldCap {
      DonorSound(qs, use, ds[i]);
    }
  }

  /** The recipient is known, at or above its floor and in-flight, and so is its limit. */
  ghost predicate Placed<K>(qs: seq<Quota<K>>, use: map<K, int>, limit: K -> Option<int>, d: (K, nat)) {
    var q := Find(qs, d.0);
    && q.Some?
    && 0 <= q.value.floor && Max(q.value.floor, Use(use, d.0)) <= q.value.cap
    && (limit(d.0).Some? ==> Max(q.value.floor, Use(use, d.0)) <= limit(d.0).value)
  }

  lemma RecipientSound<K>(qs: seq<Quota<K>>, use: map<K, int>, limit: K -> Option<int>, d: (K, nat))
    requires Placed(qs, use, limit, d)
    ensures
      var c := RecipientChange(qs, limit, d);
      && Sound(qs, use, c) && c.key == d.0 && c.newCap - c.oldCap <= d.1
      && (limit(d.0).None? ==> c.newCap - c.oldCap == d.1)
  {
  }

  lemma {:induction false} RecipientOrigin<K>(qs: seq<Quota<K>>, limit: K -> Option<int>, ds: Dict<K>, i: nat)
    returns (j: nat)
    requires i < |RecipientChanges(qs, limit, ds)|
    ensures j < |ds| && RecipientChanges(qs, limit, ds)[i] == RecipientChange(qs, limit, ds[j])
  {
    if i < |RecipientChanges(qs, limit, ds[..|ds| - 1])| {
      j := RecipientOrigin(qs, limit, ds[..|ds| - 1], i);
    } else {
      j := |ds| - 1;
    }
  }

  lemma RecipientsDistinct<K>(qs: seq<Quota<K>>, limit: K -> Option<int>, ds: Dict<K>)
    requires ds != [] && DistinctKeys(ds) && DistinctChanges(RecipientChanges(qs, limit, ds[..|ds| - 1]))
    ensures DistinctChanges(RecipientChanges(qs, limit, ds))
  {
    var init := ds[..|ds| - 1];
    var before := RecipientChanges(qs, limit, init);
    forall i | 0 <= i < |before| ensures before[i].key != ds[|ds| - 1].0 {
      var j := RecipientOrigin(qs, limit, init, i);
      assert ds[j] == init[j];
    }
  }

  lemma {:induction false} RecipientsLand<K>(
    qs: seq<Quota<K>>, use: map<K, int>, limit: K -> Option<int>, ds: Dict<K>, sel: K -> bool)
    requires forall i :: 0 <= i < |ds| ==> Placed(qs, use, limit, ds[i]) && sel(ds[i].0)
    ensures
      var cs := RecipientChanges(qs, limit, ds);
      && AllSound(qs, use, cs)
      && SumDelta(cs, sel) <= Sum(ds)
      && ((forall k :: limit(k).None?) ==> SumDelta(cs, sel) == Sum(ds))
  {
    hide Placed, Sound, RecipientChange;
    if ds != [] {
      var init, last := ds[..|ds| - 1], ds[|ds| - 1];
      RecipientsLand(qs, use, limit, init, sel);
      SumSnoc(ds);
      RecipientSound(qs, use, limit, last);
      assert RecipientChanges(qs, limit, init) + [] == RecipientChanges(qs, limit, init);
      SumDeltaSnoc(RecipientChanges(qs, limit, init), RecipientChange(qs, limit, last), sel);
    }
  }

  lemma {:induction false} RecipientsApart<K>(qs: seq<Quota<K>>, limit: K -> Option<int>, ds: Dict<K>)
    requires DistinctKeys(ds)
    ensures DistinctChanges(RecipientChanges(qs, limit, ds))
  {
    if ds != [] {
      RecipientsApart(qs, limit, ds[..|ds| - 1]);
      RecipientsDistinct(qs, limit, ds);
    }
  }

  /** The loads are those of quotas in `qs`, all within floor and cap. */
  ghost predicate Sourced<K>(ls: seq<Load<K>>, qs: seq<Quota<K>>, use: map<K, int>) {
    forall i :: 0 <= i < |ls| ==>
      && Find(qs, ls[i].q.key) == Some(ls[i].q) && ls[i].inFlight == Use(use, ls[i].q.key)
      && 0 <= ls[i].q.floor <= ls[i].q.cap && 0 <= ls[i].inFlight <= ls[i].q.cap
  }

  ghost predicate Roomy<K>(ls: seq<Load<K>>, limit: K -> Option<int>) {
    forall i :: 0 <= i < |ls| && limit(ls[i].q.key).Some? ==>
      Max(ls[i].q.floor, ls[i].inFlight) <= limit(ls[i].q.key).value
  }

  lemma {:induction false} ZeroSum<K>(items: seq<(K, nat)>)
    requires forall i :: 0 <= i < |items| ==> items[i].1 == 0
    ensures Sum(items) == 0
  {
    if items != [] {
      ZeroSum(items[1..]);
    }
  }

  /** Where nothing is over its cap no stressed quota has any excess, so recipients share evenly. */
  lemma {:induction false} SharedEvenly<K>(
    p: Policy, ls: seq<Load<K>>, qs: seq<Quota<K>>, use: map<K, int>, total: nat)
    requires Sourced(ls, qs, use) && DistinctLoads(ls) && Stressed(p, ls) != []
    ensures
      var items := ExcessItems(Stressed(p, ls));
      Sum(items) == 0 && Recipients(total, items) == Positive(Even(total, items))
      && DistinctKeys(Positive(Even(total, items))) && Sum(Positive(Even(total, items))) == total
  {
    var items := ExcessItems(Stressed(p, ls));
    forall i | 0 <= i < |items| ensures items[i].1 == 0 {
      var j := StressedOrigin(p, ls, i);
    }
    ZeroSum(items);
    StressedDistinct(p, ls);
    DistinctNoCollision(items, Even(total, items));
    CollectDistinct(Even(total, items));
    EvenSum(total, items);
  }

  ghost predicate HasKey<K>(ls: seq<Load<K>>, k: K) {
    exists j :: 0 <= j < |ls| && ls[j].q.key == k
  }

  /** A transfer from slack to stressed loads that loses nothing and that the quotas can bear. */
  ghost predicate Bearable<K>(p: Policy, ls: seq<Load<K>>, qs: seq<Quota<K>>, use: map<K, int>, limit: K -> Option<int>,
                              t: Transfer<K>) {
    && DistinctKeys(t.donors) && DistinctKeys(t.recipients)
    && Sum(t.donors) == Sum(t.recipients)
    && (forall i :: 0 <= i < |t.donors| ==> Backed(qs, use, t.donors[i]) && HasKey(Slack(p, ls), t.donors[i].0))
    && (forall i :: 0 <= i < |t.recipients| ==>
          Placed(qs, use, limit, t.recipients[i]) && HasKey(Stressed(p, ls), t.recipients[i].0))
  }

  lemma DonationBacked<K>(p: Policy, ls: seq<Load<K>>, qs: seq<Quota<K>>, use: map<K, int>, j: nat)
    requires ValidPolicy(p) && Sourced(ls, qs, use) && j < |Slack(p, ls)|
    ensures
      var d := Donations(HeadroomItems(Slack(p, ls)), p.fraction)[j];
      HasKey(Slack(p, ls), d.0) && (d.1 > 0 ==> Backed(qs, use, d))
  {
    var k := SlackOrigin(p, ls, j);
    assert Slack(p, ls)[j].q.key == Donations(HeadroomItems(Slack(p, ls)), p.fraction)[j].0;
  }

  lemma DonorsBacked<K>(p: Policy, ls: seq<Load<K>>, qs: seq<Quota<K>>, use: map<K, int>)
    requires ValidPolicy(p) && Sourced(ls, qs, use) && DistinctLoads(ls)
    ensures
      var given := Donations(HeadroomItems(Slack(p, ls)), p.fraction);
      && Collect(given) == Positive(given) && DistinctKeys(Positive(given)) && Sum(Positive(given)) == Sum(given)
      && forall i :: 0 <= i < |Positive(given)| ==>
           Backed(qs, use, Positive(given)[i]) && HasKey(Slack(p, ls), Positive(given)[i].0)
  {
    hide Sourced, Backed, HasKey;
    var items := HeadroomItems(Slack(p, ls));
    var given := Donations(items, p.fraction);
    SlackDistinct(p, ls);
    DistinctNoCollision(items, given);
    CollectDistinct(given);
    forall i | 0 <= i < |Positive(given)|
      ensures Backed(qs, use, Positive(given)[i]) && HasKey(Slack(p, ls), Positive(given)[i].0)
    {
      var j := PositiveOrigin(given, i);
      DonationBacked(p, ls, qs, use, j);
    }
  }

  lemma RecipientsPlaced<K>(
    p: Policy, ls: seq<Load<K>>, qs: seq<Quota<K>>, use: map<K, int>, limit: K -> Option<int>, total: nat)
    requires Sourced(ls, qs, use) && Roomy(ls, limit) && Stressed(p, ls) != []
    ensures
      var ds := Positive(Even(total, ExcessItems(Stressed(p, ls))));
      forall i :: 0 <= i < |ds| ==> Placed(qs, use, limit, ds[i]) && HasKey(Stressed(p, ls), ds[i].0)
  {
    var shares := Even(total, ExcessItems(Stressed(p, ls)));
    forall i | 0 <= i < |Positive(shares)|
      ensures Placed(qs, use, limit, Positive(shares)[i]) && HasKey(Stressed(p, ls), Positive(shares)[i].0)
    {
      var j := PositiveOrigin(shares, i);
      var k := StressedOrigin(p, ls, j);
    }
  }

  lemma TransferBearable<K>(p: Policy, ls: seq<Load<K>>, qs: seq<Quota<K>>, use: map<K, int>, limit: K -> Option<int>)
    requires ValidPolicy(p) && Sourced(ls, qs, use) && DistinctLoads(ls) && Roomy(ls, limit)
    requires Cascades(p, ls)
    ensures TransferFor(p, ls).Some? && Bearable(p, ls, qs, use, limit, TransferFor(p, ls).value)
  {
    var t := TransferFor(p, ls).value;
    if t.total > 0 {
      DonorsBacked(p, ls, qs, use);
      SharedEvenly(p, ls, qs, use, t.total);
      RecipientsPlaced(p, ls, qs, use, limit, t.total);
    }
  }

  lemma KeysSelected<K>(p: Policy, ls: seq<Load<K>>, k: K, sel: K -> bool)
    requires forall i :: 0 <= i < |ls| ==> sel(ls[i].q.key)
    requires HasKey(Slack(p, ls), k) || HasKey(Stressed(p, ls), k)
    ensures sel(k) && HasKey(ls, k)
  {
    if HasKey(Slack(p, ls), k) {
      var j :| 0 <= j < |Slack(p, ls)| && Slack(p, ls)[j].q.key == k;
      var i := SlackOrigin(p, ls, j);
    } else {
      var j :| 0 <= j < |Stressed(p, ls)| && Stressed(p, ls)[j].q.key == k;
      var i := StressedOrigin(p, ls, j);
    }
  }

  /** A drafted change is about one of the loads, and grows it at most to its limit. */
  ghost predicate Belongs<K>(ls: seq<Load<K>>, limit: K -> Option<int>, c: Change<K>) {
    && HasKey(ls, c.key)
    && (c.newCap < c.oldCap || (limit(c.key).Some? ==> c.newCap <= limit(c.key).value))
  }

  ghost predicate AllBelong<K>(ls: seq<Load<K>>, limit: K -> Option<int>, cs: seq<Change<K>>) {
    forall i :: 0 <= i < |cs| ==> Belongs(ls, limit, cs[i])
  }

  lemma BearableBelongs<K>(
    p: Policy, ls: seq<Load<K>>, qs: seq<Quota<K>>, use: map<K, int>, limit: K -> Option<int>, t: Transfer<K>)
    requires Bearable(p, ls, qs, use, limit, t)
    ensures AllBelong(ls, limit, ChangesOf(qs, use, limit, t))
  {
    hide Backed, Placed, DonorChange, HasKey, Slack, Stressed;
    DonorsLand(qs, use, t.donors, k => true);
    var xs, ys := DonorChanges(qs, use, t.donors), RecipientChanges(qs, limit, t.recipients);
    forall i | 0 <= i < |xs| ensures Belongs(ls, limit, xs[i]) {
      KeysSelected(p, ls, t.donors[i].0, k => true);
    }
    forall i | 0 <= i < |ys| ensures Belongs(ls, limit, ys[i]) {
      var j := RecipientOrigin(qs, limit, t.recipients, i);
      KeysSelected(p, ls, t.recipients[j].0, k => true);
    }
  }

  lemma BearableSound<K>(
    p: Policy, ls: seq<Load<K>>, qs: seq<Quota<K>>, use: map<K, int>, limit: K -> Option<int>, t: Transfer<K>)
    requires Bearable(p, ls, qs, use, limit, t)
    ensures AllSound(qs, use, ChangesOf(qs, use, limit, t))
  {
    hide Backed, Placed, Sound, HasKey, Slack, Stressed, DistinctKeys;
    DonorsLand(qs, use, t.donors, k => true);
    RecipientsLand(qs, use, limit, t.recipients, k => true);
  }

  lemma BearableDelta<K>(
    p: Policy, ls: seq<Load<K>>, qs: seq<Quota<K>>, use: map<K, int>, limit: K -> Option<int>, t: Transfer<K>,
    sel: K -> bool)
    requires Bearable(p, ls, qs, use, limit, t)
    requires forall i :: 0 <= i < |ls| ==> sel(ls[i].q.key)
    ensures SumDelta(ChangesOf(qs, use, limit, t), sel) <= 0
    ensures (forall k :: limit(k).None?) ==> SumDelta(ChangesOf(qs, use, limit, t), sel) == 0
  {
    hide Backed, Placed, Sound, HasKey, Slack, Stressed, DistinctKeys;
    forall i | 0 <= i < |t.donors| ensures sel(t.donors[i].0) {
      KeysSelected(p, ls, t.donors[i].0, sel);
    }
    forall i | 0 <= i < |t.recipients| ensures sel(t.recipients[i].0) {
      KeysSelected(p, ls, t.recipients[i].0, sel);
    }
    DonorsLand(qs, use, t.donors, sel);
    RecipientsLand(qs, use, limit, t.recipients, sel);
    SumDeltaAppend(DonorChanges(qs, use, t.donors), RecipientChanges(qs, limit, t.recipients), sel);
  }

  lemma NotBoth<K>(p: Policy, ls: seq<Load<K>>, k: K)
    requires DistinctLoads(ls)
    ensures !(HasKey(Slack(p, ls), k) && HasKey(Stressed(p, ls), k))
  {
    StressedApartFromSlack(p, ls);
  }

  lemma DistinctAppend<K>(xs: seq<Change<K>>, ys: seq<Change<K>>)
    requires DistinctChanges(xs) && DistinctChanges(ys)
    requires forall i, j :: 0 <= i < |xs| && 0 <= j < |ys| ==> xs[i].key != ys[j].key
    ensures DistinctChanges(xs + ys)
  {
  }

  lemma DonorsApart<K>(qs: seq<Quota<K>>, use: map<K, int>, ds: Dict<K>)
    requires DistinctKeys(ds) && forall i :: 0 <= i < |ds| ==> Backed(qs, use, ds[i])
    ensures DistinctChanges(DonorChanges(qs, use, ds))
  {
    hide Backed, DonorChange, DonorChanges, Sound;
    DonorsLand(qs, use, ds, k => true);
    var cs := DonorChanges(qs, use, ds);
    forall i, j | 0 <= i < j < |cs| ensures cs[i].key != cs[j].key {
      assert ds[i].0 != ds[j].0;
    }
  }

  lemma BearableApart<K>(
    p: Policy, ls: seq<Load<K>>, qs: seq<Quota<K>>, use: map<K, int>, limit: K -> Option<int>, t: Transfer<K>)
    requires DistinctLoads(ls) && Bearable(p, ls, qs, use, limit, t)
    ensures DistinctChanges(ChangesOf(qs, use, limit, t))
  {
    hide Backed, Placed, DonorChange, Slack, Stressed, DistinctLoads, DistinctKeys, DistinctChanges, HasKey, Sound;
    var xs, ys := DonorChanges(qs, use, t.donors), RecipientChanges(qs, limit, t.recipients);
    DonorsLand(qs, use, t.donors, k => true);
    DonorsApart(qs, use, t.donors);
    RecipientsApart(qs, limit, t.recipients);
    forall i, j | 0 <= i < |xs| && 0 <= j < |ys| ensures xs[i].key != ys[j].key {
      var a := RecipientOrigin(qs, limit, t.recipients, j);
      assert HasKey(Slack(p, ls), t.donors[i].0) && HasKey(Stressed(p, ls), t.recipients[a].0);
      NotBoth(p, ls, xs[i].key);
    }
    DistinctAppend(xs, ys);
  }

  /** A draft over sound loads is a list of sound changes to distinct quotas that never adds capacity,
      and that moves it exactly, without loss, where there is no limit. */
  lemma DraftIsSound<K>(
    p: Policy, ls: seq<Load<K>>, qs: seq<Quota<K>>, use: map<K, int>, limit: K -> Option<int>, sel: K -> bool)
    requires ValidPolicy(p) && Sourced(ls, qs, use) && DistinctLoads(ls) && Roomy(ls, limit)
    requires forall i :: 0 <= i < |ls| ==> sel(ls[i].q.key)
    ensures
      var cs := Draft(p, ls, qs, use, limit);
      && AllSound(qs, use, cs) && DistinctChanges(cs) && AllBelong(ls, limit, cs)
      && SumDelta(cs, sel) <= 0
      && ((forall k :: limit(k).None?) ==> SumDelta(cs, sel) == 0)
  {
    hide Sourced, Roomy, DistinctLoads, Bearable, Sound, DistinctChanges, Belongs;
    hide DonorChanges, RecipientChanges, TransferFor, Cascades;
    if Cascades(p, ls) {
      TransferBearable(p, ls, qs, use, limit);
      var t := TransferFor(p, ls).value;
      assert Draft(p, ls, qs, use, limit) == ChangesOf(qs, use, limit, t);
      BearableSound(p, ls, qs, use, limit, t);
      BearableApart(p, ls, qs, use, limit, t);
      BearableBelongs(p, ls, qs, use, limit, t);
      BearableDelta(p, ls, qs, use, limit, t, sel);
    } else {
      EmptyDistinct<K>();
    }
  }

  lemma EmptyDistinct<K>()
    ensures DistinctChanges<K>([])
  {
  }

  // ----- the pool half -----

  lemma LoadsSourced<K>(qs: seq<Quota<K>>, use: map<K, int>)
    requires Distinct(qs)
    requires forall q :: q in qs ==> ValidQuota(q) && 0 <= Use(use, q.key) <= q.cap
    ensures Sourced(Loads(qs, use), qs, use) && DistinctLoads(Loads(qs, use))
  {
    forall i | 0 <= i < |qs|
      ensures Find(qs, qs[i].key) == Some(qs[i]) && ValidQuota(qs[i]) && 0 <= Use(use, qs[i].key) <= qs[i].cap
    {
      assert qs[i] in qs;
      FindIn(qs, qs[i]);
    }
  }

  /** Every ceiling fits beside the other pools' reserved floors. */
  ghost predicate Fits(b: Books) {
    forall q :: q in b.pools ==> q.cap + OtherFloors(b.pools, q.key) <= b.total
  }

  lemma PoolsRoomy(b: Books)
    requires Good(b)
    ensures Roomy(Loads(b.pools, b.poolUse), Room(b))
  {
    forall i | 0 <= i < |b.pools|
      ensures Max(b.pools[i].floor, Use(b.poolUse, b.pools[i].key)) <= b.total - OtherFloors(b.pools, b.pools[i].key)
    {
      assert b.pools[i] in b.pools;
      FloorsSplit(b.pools, b.pools[i].key);
      FindIn(b.pools, b.pools[i]);
    }
  }

  lemma PoolDraftIsSound(p: Policy, b: Books)
    requires ValidPolicy(p) && Good(b)
    ensures
      var cs := PoolDraft(p, b);
      && AllSound(b.pools, b.poolUse, cs) && DistinctChanges(cs) && SumDelta(cs, k => true) <= 0
      && AllBelong(Loads(b.pools, b.poolUse), Room(b), cs)
  {
    LoadsSourced(b.pools, b.poolUse);
    PoolsRoomy(b);
    DraftIsSound(p, Loads(b.pools, b.poolUse), b.pools, b.poolUse, Room(b), k => true);
  }

  lemma PoolDraftFits(p: Policy, b: Books)
    requires ValidPolicy(p) && Good(b) && Fits(b)
    ensures Fitting(b, PoolDraft(p, b))
  {
    var cs := PoolDraft(p, b);
    PoolDraftIsSound(p, b);
    forall i | 0 <= i < |cs| ensures cs[i].newCap + OtherFloors(b.pools, cs[i].key) <= b.total {
      assert Belongs(Loads(b.pools, b.poolUse), Room(b), cs[i]) && Sound(b.pools, b.poolUse, cs[i]);
      assert Find(b.pools, cs[i].key).value in b.pools;
    }
  }

  // ----- the tenant half -----

  lemma MarkedSourced(p: Policy, b: Books, pool: string)
    requires ValidPolicy(p) && Good(b)
    ensures
      var ls := InPool(MarkedTenants(p, b), pool);
      Sourced(ls, b.tenants, b.tenantUse) && DistinctLoads(ls)
      && forall i :: 0 <= i < |ls| ==> ls[i].q.key.0 == pool
  {
    var all, marked := Loads(b.tenants, b.tenantUse), MarkedTenants(p, b);
    LoadsSourced(b.tenants, b.tenantUse);
    StressedDistinct(p, all);
    SlackDistinct(p, all);
    StressedApartFromSlack(p, all);
    assert DistinctLoads(marked);
    InPoolDistinct(marked, pool);
    var ls := InPool(marked, pool);
    forall i | 0 <= i < |ls|
      ensures ls[i].q.key.0 == pool && exists j :: 0 <= j < |all| && all[j] == ls[i]
    {
      var a := InPoolOrigin(marked, pool, i);
      if a < |Stressed(p, all)| {
        var j := StressedOrigin(p, all, a);
      } else {
        var j := SlackOrigin(p, all, a - |Stressed(p, all)|);
      }
    }
  }

  lemma {:induction false} SumDeltaNone<K>(cs: seq<Change<K>>, sel: K -> bool)
    requires forall i :: 0 <= i < |cs| ==> !sel(cs[i].key)
    ensures SumDelta(cs, sel) == 0
  {
    if cs != [] {
      SumDeltaNone(cs[..|cs| - 1], sel);
    }
  }

  function OfPool(pool: string): ((string, string)) -> bool {
    (k: (string, string)) => k.0 == pool
  }

  /** One pool's tenants: sound changes to that pool's tenants only, moving burst without loss. */
  lemma TenantDraftInIsSound(p: Policy, b: Books, pool: string, name: string)
    requires ValidPolicy(p) && Good(b)
    ensures
      var cs := TenantDraftIn(p, b, pool);
      && AllSound(b.tenants, b.tenantUse, cs) && DistinctChanges(cs)
      && (forall i :: 0 <= i < |cs| ==> cs[i].key.0 == pool)
      && SumDelta(cs, OfPool(name)) == 0
  {
    var ls, cs := InPool(MarkedTenants(p, b), pool), TenantDraftIn(p, b, pool);
    MarkedSourced(p, b, pool);
    DraftIsSound(p, ls, b.tenants, b.tenantUse, NoLimit(), OfPool(pool));
    forall i | 0 <= i < |cs| ensures cs[i].key.0 == pool {
      assert Belongs(ls, NoLimit(), cs[i]);
    }
    if name != pool {
      SumDeltaNone(cs, OfPool(name));
    }
  }

  ghost predicate PoolNamed(pools: seq<Pool>, name: string) {
    exists j :: 0 <= j < |pools| && pools[j].key == name
  }

  lemma PoolNamedSnoc(pools: seq<Pool>, last: Pool, name: string)
    ensures PoolNamed(pools + [last], name) <==> PoolNamed(pools, name) || last.key == name
    ensures Distinct(pools + [last]) ==> Distinct(pools) && !PoolNamed(pools, last.key)
  {
    var all := pools + [last];
    assert all[|pools|] == last;
    assert forall j :: 0 <= j < |pools| ==> all[j] == pools[j];
    if PoolNamed(pools, name) {
      var j :| 0 <= j < |pools| && pools[j].key == name;
      assert all[j].key == name;
    }
  }

  lemma {:induction false} TenantDraftIsSound(p: Policy, b: Books, pools: seq<Pool>, name: string)
    requires ValidPolicy(p) && Good(b) && Distinct(pools)
    ensures
      var cs := TenantDraft(p, b, pools);
      && AllSound(b.tenants, b.tenantUse, cs) && DistinctChanges(cs)
      && (forall i :: 0 <= i < |cs| ==> PoolNamed(pools, cs[i].key.0))
      && SumDelta(cs, OfPool(name)) == 0
  {
    hide Good, Distinct, PoolNamed, Sound, TenantDraftIn;
    if pools != [] {
      var init, last := pools[..|pools| - 1], pools[|pools| - 1];
      assert pools == init + [last];
      PoolNamedSnoc(init, last, "");
      TenantDraftIsSound(p, b, init, name);
      TenantDraftInIsSound(p, b, last.key, name);
      var xs, ys := TenantDraft(p, b, init), TenantDraftIn(p, b, last.key);
      SumDeltaAppend(xs, ys, OfPool(name));
      forall i | 0 <= i < |xs| ensures xs[i].key.0 != last.key && PoolNamed(pools, xs[i].key.0) {
        PoolNamedSnoc(init, last, xs[i].key.0);
      }
      PoolNamedSnoc(init, last, last.key);
    }
  }

  // ----- the whole rebalance -----

  lemma StepFits(b: Books, op: Op)
    requires Distinct(b.pools) && Fits(b)
    ensures Distinct(Step(b, op).0.pools) && Fits(Step(b, op).0)
  {
    hide AcquireStep, ReleaseStep, AdjustBurstStep;
    var next := Step(b, op).0;
    if op.AdjustCeiling? && next != b {
      SetCapOnlyCaps(b.pools, op.pool, op.cap);
      forall q | q in next.pools ensures q.cap + OtherFloors(next.pools, q.key) <= next.total {
        var q0 := SetCapOrigin(b.pools, op.pool, op.cap, q);
      }
    } else {
      SamePools(b, op);
    }
  }

  lemma {:induction false} PlanFits(b: Books, ops: seq<Op>)
    requires Distinct(b.pools) && Fits(b)
    ensures Fits(ApplyAll(b, ops).0)
    decreases |ops|
  {
    hide Distinct, Fits, Step;
    if ops != [] {
      StepFits(b, ops[0]);
      PlanFits(Step(b, ops[0]).0, ops[1..]);
    }
  }

  lemma SamePools(b: Books, op: Op)
    ensures !op.AdjustCeiling? ==> Step(b, op).0.pools == b.pools && Step(b, op).0.total == b.total
  {
    hide AdjustCeilingStep;
  }

  /** What a rebalance leaves, when its ceilings fit: every pool and tenant keeps its key and floor,
      nothing in flight moves, the ceilings' sum does not grow, and each pool's tenants keep the sum
      of their bursts. */
  lemma PlanLands(p: Policy, b: Books, name: string)
    requires ValidPolicy(p) && Good(b)
    ensures
      var d := Evaluate(p, b);
      var r := ApplyAll(b, PlanOf(d));
      && (r.1.None? <==> Fitting(b, Shrinks(d.pools) + Grows(d.pools)))
      && (r.1.None? ==>
            && r.0 == b.(pools := r.0.pools, tenants := r.0.tenants)
            && OnlyCaps(b.pools, r.0.pools) && OnlyCaps(b.tenants, r.0.tenants)
            && SumCaps(r.0.pools, k => true) <= SumCaps(b.pools, k => true)
            && SumCaps(r.0.tenants, OfPool(name)) == SumCaps(b.tenants, OfPool(name)))
  {
    hide Step, PoolDraft, TenantDraft, Sound, Distinct;
    var d := Evaluate(p, b);
    var all := (k: string) => true;
    PoolDraftIsSound(p, b);
    GoodDistinct(b);
    TenantDraftIsSound(p, b, b.pools, name);
    Reordered(b.pools, b.poolUse, d.pools, all);
    Reordered(b.tenants, b.tenantUse, d.tenants, OfPool(name));
    var xs, ys := Shrinks(d.pools) + Grows(d.pools), Shrinks(d.tenants) + Grows(d.tenants);
    CeilingsLand(b, xs, all);
    ApplyAllAppend(b, CeilingOps(xs), BurstOps(ys));
    BurstsLand(ApplyAll(b, CeilingOps(xs)).0, ys, OfPool(name));
  }

  lemma GoodDistinct(b: Books)
    requires Good(b)
    ensures Distinct(b.pools) && Distinct(b.tenants)
  {
  }

  /** On a controller whose ceilings all fit beside the other pools' floors, evaluating and applying
      never raises; it keeps every floor, cap and in-flight bound, never adds to the sum of the
      ceilings, and leaves each pool's sum of tenant bursts exactly as it was. */
  lemma RebalanceIsSafe(p: Policy, b: Books, name: string)
    requires ValidPolicy(p) && Good(b) && Fits(b)
    ensures
      var r := ApplyAll(b, PlanOf(Evaluate(p, b)));
      && r.1.None?
      && Good(r.0) && Fits(r.0)
      && r.0.poolUse == b.poolUse && r.0.tenantUse == b.tenantUse && r.0.total == b.total
      && OnlyCaps(b.pools, r.0.pools) && OnlyCaps(b.tenants, r.0.tenants)
      && SumCaps(r.0.pools, k => true) <= SumCaps(b.pools, k => true)
      && SumCaps(r.0.tenants, OfPool(name)) == SumCaps(b.tenants, OfPool(name))
  {
    hide Good, Evaluate, Step, Fitting;
    PlanLands(p, b, name);
    GoodDistinct(b);
    PoolDraftFits(p, b);
    FittingReordered(b, PoolDraft(p, b));
    EvaluatePools(p, b);
    ApplyAllGood(b, PlanOf(Evaluate(p, b)));
    PlanFits(b, PlanOf(Evaluate(p, b)));
  }

  lemma EvaluatePools(p: Policy, b: Books)
    requires ValidPolicy(p)
    ensures Evaluate(p, b).pools == PoolDraft(p, b)
  {
  }

  lemma FittingReordered(b: Books, cs: seq<Change<string>>)
    requires Fitting(b, cs)
    ensures Fitting(b, Shrinks(cs) + Grows(cs))
  {
    var r := Shrinks(cs) + Grows(cs);
    forall i | 0 <= i < |r| ensures r[i].newCap + OtherFloors(b.pools, r[i].key) <= b.total {
      var j := ReorderedOrigin(cs, i);
    }
  }

  // ----- the rebalancer at work on a controller -----

  ghost function SignalsOf(p: Policy, b: Books): Signals {
    var pools, tenants := Loads(b.pools, b.poolUse), Loads(b.tenants, b.tenantUse);
    Signals(Stressed(p, pools), Slack(p, pools), Cascades(p, pools),
            Stressed(p, tenants), Slack(p, tenants), TenantsCascade(p, b))
  }

  method Classify<K>(p: Policy, ls: seq<Load<K>>) returns (stressed: seq<Load<K>>, slack: seq<Load<K>>)
    ensures stressed == Stressed(p, ls) && slack == Slack(p, ls)
  {
    stressed, slack := [], [];
    for i := 0 to |ls|
      invariant stressed == Stressed(p, ls[..i]) && slack == Slack(p, ls[..i])
    {
      assert ls[..i + 1][..i] == ls[..i];
      if Utilization(ls[i]) >= p.stress {
        stressed := stressed + [ls[i]];
      } else if Utilization(ls[i]) <= p.slack {
        slack := slack + [ls[i]];
      }
    }
    assert ls[..|ls|] == ls;
  }

  method CascadesIn<K>(p: Policy, ls: seq<Load<K>>) returns (r: bool)
    ensures r == Cascades(p, ls)
  {
    var stressed, slack := Classify(p, ls);
    r := |stressed| >= p.minStressed && |slack| >= 1;
  }

  lemma InPoolSnoc(ls: seq<Load<(string, string)>>, l: Load<(string, string)>, pool: string)
    ensures InPool(ls + [l], pool) == if l.q.key.0 == pool then InPool(ls, pool) + [l] else InPool(ls, pool)
  {
    assert (ls + [l])[..|ls|] == ls;
  }

  method ByPool(ls: seq<Load<(string, string)>>) returns (m: map<string, seq<Load<(string, string)>>>)
    ensures forall k :: InPool(ls, k) == if k in m then m[k] else []
  {
    m := map[];
    for i := 0 to |ls|
      invariant forall k :: InPool(ls[..i], k) == if k in m then m[k] else []
    {
      assert ls[..i + 1] == ls[..i] + [ls[i]];
      var name := ls[i].q.key.0;
      ghost var before := m;
      m := m[name := (if name in m then m[name] else []) + [ls[i]]];
      forall k ensures InPool(ls[..i + 1], k) == if k in m then m[k] else [] {
        InPoolSnoc(ls[..i], ls[i], k);
      }
    }
    assert ls[..|ls|] == ls;
  }

  method AnyPoolCascades(p: Policy, m: map<string, seq<Load<(string, string)>>>) returns (any: bool)
    ensures any <==> exists k :: k in m && Cascades(p, m[k])
  {
    var rest := m.Keys;
    while rest != {}
      invariant rest <= m.Keys
      invariant forall k :: k in m && k !in rest ==> !Cascades(p, m[k])
    {
      var k :| k in rest;
      var hot := CascadesIn(p, m[k]);
      if hot {
        return true;
      }
      rest := rest - {k};
    }
    return false;
  }

  method ReadSignals(p: Policy, c: BudgetController) returns (s: Signals)
    requires ValidPolicy(p)
    ensures s == SignalsOf(p, c.State())
  {
    var pools := Loads(c.pools, c.poolUse);
    var stressed, slack := Classify(p, pools);
    var cascading := |stressed| >= p.minStressed && |slack| >= 1;
    var tenants := Loads(c.tenants, c.tenantUse);
    var tenantStressed, tenantSlack := Classify(p, tenants);
    var byPool := ByPool(tenants);
    var any := AnyPoolCascades(p, byPool);
    assert any <==> TenantsCascade(p, c.State()) by {
      if k :| Cascades(p, InPool(tenants, k)) {
        assert InPool(tenants, k) == if k in byPool then byPool[k] else [];
      }
    }
    s := Signals(stressed, slack, cascading, tenantStressed, tenantSlack, any);
  }

  method DraftChanges<K(==)>(p: Policy, ghost ls: seq<Load<K>>, stressed: seq<Load<K>>, slack: seq<Load<K>>,
                             qs: seq<Quota<K>>, use: map<K, int>, limit: K -> Option<int>)
    returns (cs: seq<Change<K>>)
    requires ValidPolicy(p)
    requires stressed == Stressed(p, ls) && slack == Slack(p, ls) && Cascades(p, ls)
    ensures cs == Draft(p, ls, qs, use, limit)
  {
    cs := [];
    var r := AllocateTransfer(HeadroomItems(slack), ExcessItems(stressed), p.fraction);
    if r.None? {
      return;
    }
    var t := r.value;
    for i := 0 to |t.donors|
      invariant cs == DonorChanges(qs, use, t.donors[..i])
    {
      assert t.donors[..i + 1][..i] == t.donors[..i];
      var change := DonorChange(qs, use, t.donors[i]);
      if change.newCap != change.oldCap {
        cs := cs + [change];
      }
    }
    assert t.donors[..|t.donors|] == t.donors;
    var grown: seq<Change<K>> := [];
    for i := 0 to |t.recipients|
      invariant grown == RecipientChanges(qs, limit, t.recipients[..i])
    {
      assert t.recipients[..i + 1][..i] == t.recipients[..i];
      var change := RecipientChange(qs, limit, t.recipients[i]);
      if change.newCap != change.oldCap {
        grown := grown + [change];
      }
    }
    assert t.recipients[..|t.recipients|] == t.recipients;
    cs := cs + grown;
  }

  method EvaluatePoolHalf(p: Policy, c: BudgetController, s: Signals) returns (cs: seq<Change<string>>)
    requires ValidPolicy(p) && s == SignalsOf(p, c.State())
    ensures cs == PoolDraft(p, c.State())
  {
    if !s.cascading {
      return [];
    }
    var limit := Room(Books(c.total, c.pools, c.tenants, c.poolUse, c.tenantUse));
    cs := DraftChanges(p, Loads(c.pools, c.poolUse), s.stressed, s.slack, c.pools, c.poolUse, limit);
  }

  method EvaluateTenantHalf(p: Policy, c: BudgetController, s: Signals) returns (cs: seq<Change<(string, string)>>)
    requires ValidPolicy(p) && s == SignalsOf(p, c.State())
    ensures cs == Evaluate(p, c.State()).tenants
  {
    hide InPool, Cascades, TenantsCascade, TenantDraftIn, PoolDraft;
    cs := [];
    if !s.tenantCascading {
      return;
    }
    ghost var b := c.State();
    var byPool := ByPool(s.tenantStressed + s.tenantSlack);
    for i := 0 to |c.pools|
      invariant cs == TenantDraft(p, b, c.pools[..i])
    {
      assert c.pools[..i + 1][..i] == c.pools[..i];
      var name := c.pools[i].key;
      var utils := if name in byPool then byPool[name] else [];
      assert utils == InPool(MarkedTenants(p, b), name);
      var more := EvaluateOnePool(p, b, c.tenants, c.tenantUse, name, utils);
      cs := cs + more;
    }
    assert c.pools[..|c.pools|] == c.pools;
  }

  method EvaluateOnePool(p: Policy, ghost b: Books, qs: seq<TenantBudget>, use: map<(string, string), int>,
                         name: string, utils: seq<Load<(string, string)>>)
    returns (cs: seq<Change<(string, string)>>)
    requires ValidPolicy(p) && qs == b.tenants && use == b.tenantUse && utils == InPool(MarkedTenants(p, b), name)
    ensures cs == TenantDraftIn(p, b, name)
  {
    var stressed, slack := Classify(p, utils);
    if |stressed| >= p.minStressed && |slack| >= 1 {
      cs := DraftChanges(p, utils, stressed, slack, qs, use, NoLimit());
    } else {
      cs := [];
    }
  }

  method EvaluateNow(p: Policy, c: BudgetController) returns (d: Decision)
    requires ValidPolicy(p)
    ensures d == Evaluate(p, c.State())
  {
    var s := ReadSignals(p, c);
    var pools := EvaluatePoolHalf(p, c, s);
    var tenants := EvaluateTenantHalf(p, c, s);
    d := Decision(pools, tenants);
  }

  /** Any decision may be applied; the first change the controller rejects is raised and what landed
      before it stays. */
  method ApplyDecision(c: BudgetController, d: Decision) returns (err: Option<Error>)
    requires c.Valid()
    modifies c`pools, c`tenants
    ensures c.Valid()
    ensures (c.State(), err) == ApplyAll(old(c.State()), PlanOf(d))
  {
    hide Good, Step;
    var plan := PlanOf(d);
    for i := 0 to |plan|
      invariant c.Valid()
      invariant ApplyAll(c.State(), plan[i..]) == ApplyAll(old(c.State()), plan)
    {
      assert plan[i..][1..] == plan[i + 1..];
      assert plan[i].AdjustCeiling? || plan[i].AdjustBurst?;
      var answer: Answer;
      if plan[i].AdjustCeiling? {
        answer := c.SetCeiling(plan[i].pool, plan[i].cap);
      } else {
        answer := c.SetBurst(plan[i].pool, plan[i].who, plan[i].cap);
      }
      if answer.Err? {
        return Some(answer.error);
      }
    }
    assert plan[|plan|..] == [];
    return None;
  }

  method EvaluateAndApply(p: Policy, c: BudgetController) returns (d: Decision, err: Option<Error>)
    requires ValidPolicy(p) && c.Valid()
    modifies c`pools, c`tenants
    ensures c.Valid()
    ensures d == Evaluate(p, old(c.State()))
    ensures (c.State(), err) == ApplyAll(old(c.State()), PlanOf(d))
    ensures Fits(old(c.State())) ==> err.None? && Fits(c.State())
  {
    ghost var b := c.State();
    d := EvaluateNow(p, c);
    err := None;
    if d.pools != [] || d.tenants != [] {
      err := ApplyDecision(c, d);
    }
    if Fits(b) {
      RebalanceIsSafe(p, b, "");
    }
  }
}
