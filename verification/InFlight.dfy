/** How much all pools together can hold: exactly when the total is kept, and what each pool is always granted. */
module InFlight {
  import opened Common
  import opened Quotas
  import opened Budgets

  /** The units in flight over the pools in `qs`. */
  function SumUse(qs: seq<Pool>, use: map<string, int>): int {
    if qs == [] then 0 else SumUse(qs[..|qs| - 1], use) + Use(use, qs[|qs| - 1].key)
  }

  /** The most a pool can hold: its ceiling, or what the other pools' floors leave of the total. */
  function Reach(total: int, pools: seq<Pool>, q: Pool): int {
    Min(q.cap, total - OtherFloors(pools, q.key))
  }

  function SumReach(total: int, pools: seq<Pool>, qs: seq<Pool>): int {
    if qs == [] then 0 else SumReach(total, pools, qs[..|qs| - 1]) + Reach(total, pools, qs[|qs| - 1])
  }

  ghost predicate Admissions(ops: seq<Op>) {
    forall op :: op in ops ==> op.Acquire? || op.Release?
  }

  function Empty(total: int, pools: seq<Pool>, tenants: seq<TenantBudget>): Books {
    Books(total, pools, tenants, map[], map[])
  }

  lemma EmptyIsGood(total: int, pools: seq<Pool>, tenants: seq<TenantBudget>)
    requires ValidConfig(total, pools, tenants)
    ensures Good(Empty(total, pools, tenants))
  {
    forall q | q in pools ensures OtherFloors(pools, q.key) <= total {
      FloorsSplit(pools, q.key);
      FindIn(pools, q);
    }
  }

  lemma {:induction false} RunSnoc(b: Books, ops: seq<Op>, op: Op)
    ensures RunOps(b, ops + [op]) == Step(RunOps(b, ops), op).0
    decreases |ops|
  {
    hide Step;
    if ops == [] {
      assert [op][1..] == [];
      assert ops + [op] == [op];
    } else {
      assert (ops + [op])[1..] == ops[1..] + [op];
      RunSnoc(Step(b, ops[0]).0, ops[1..], op);
    }
  }

  lemma AdmissionKeepsPools(b: Books, op: Op)
    requires op.Acquire? || op.Release?
    ensures var r := Step(b, op).0; r.total == b.total && r.pools == b.pools && r.tenants == b.tenants
  {
    hide Find, OtherFloors;
  }

  lemma {:induction false} AdmissionsKeepPools(b: Books, ops: seq<Op>)
    requires Admissions(ops)
    ensures var r := RunOps(b, ops); r.total == b.total && r.pools == b.pools && r.tenants == b.tenants
    decreases |ops|
  {
    hide Step;
    if ops != [] {
      AdmissionKeepsPools(b, ops[0]);
      AdmissionsKeepPools(Step(b, ops[0]).0, ops[1..]);
    }
  }

  lemma {:induction false} UseWithinReach(b: Books, qs: seq<Pool>)
    requires Good(b) && forall q :: q in qs ==> q in b.pools
    ensures SumUse(qs, b.poolUse) <= SumReach(b.total, b.pools, qs)
  {
    if qs != [] {
      UseWithinReach(b, qs[..|qs| - 1]);
      assert qs[|qs| - 1] in b.pools;
    }
  }

  // ----- every pool filled as far as it goes -----

  /** Each of the first `n` pools acquires all it can hold, at once. */
  function Fills(total: int, pools: seq<Pool>, n: nat): seq<Op>
    requires n <= |pools|
  {
    if n == 0 then []
    else
      var q := pools[n - 1];
      var cost := Reach(total, pools, q);
      Fills(total, pools, n - 1) + if cost >= 1 then [Acquire(q.key, cost, None)] else []
  }

  lemma {:induction false} FillsAdmit(total: int, pools: seq<Pool>, n: nat)
    requires n <= |pools|
    ensures Admissions(Fills(total, pools, n))
  {
    if n > 0 {
      FillsAdmit(total, pools, n - 1);
    }
  }

  ghost predicate Filled(b: Books, n: nat) {
    && n <= |b.pools|
    && (forall i :: 0 <= i < n ==> Use(b.poolUse, b.pools[i].key) == Reach(b.total, b.pools, b.pools[i]))
    && (forall i :: n <= i < |b.pools| ==> Use(b.poolUse, b.pools[i].key) == 0)
  }

  lemma ReachNonNegative(b: Books, i: nat)
    requires Good(b) && i < |b.pools|
    ensures 0 <= Reach(b.total, b.pools, b.pools[i]) && Find(b.pools, b.pools[i].key) == Some(b.pools[i])
  {
    assert b.pools[i] in b.pools;
    FloorsSplit(b.pools, b.pools[i].key);
    FindIn(b.pools, b.pools[i]);
  }

  lemma FillOne(b: Books, i: nat)
    requires Good(b) && i < |b.pools| && Use(b.poolUse, b.pools[i].key) == 0
    requires Reach(b.total, b.pools, b.pools[i]) >= 1
    ensures var q := b.pools[i];
      var cost := Reach(b.total, b.pools, q);
      Step(b, Acquire(q.key, cost, None)) == (b.(poolUse := b.poolUse[q.key := cost]), Ok(Allowed))
  {
    hide OtherFloors, Find, Good;
    ReachNonNegative(b, i);
  }

  lemma FilledOneMore(b: Books, n: nat)
    requires Good(b) && n < |b.pools| && Filled(b, n)
    ensures var q := b.pools[n];
      var cost := Reach(b.total, b.pools, q);
      Filled(if cost >= 1 then b.(poolUse := b.poolUse[q.key := cost]) else b, n + 1)
  {
    hide Reach;
    ReachNonNegative(b, n);
    assert Distinct(b.pools);
  }

  lemma {:induction false} FillsFill(total: int, pools: seq<Pool>, tenants: seq<TenantBudget>, n: nat)
    requires ValidConfig(total, pools, tenants) && n <= |pools|
    ensures var r := RunOps(Empty(total, pools, tenants), Fills(total, pools, n));
      Good(r) && r.total == total && r.pools == pools && Filled(r, n)
  {
    hide Good, Filled, Step, Reach, ValidConfig;
    var b := Empty(total, pools, tenants);
    EmptyIsGood(total, pools, tenants);
    FillsAdmit(total, pools, n);
    AdmissionsKeepPools(b, Fills(total, pools, n));
    RunGood(b, Fills(total, pools, n));
    if n == 0 {
      NoneFilled(b);
    } else {
      FillsFill(total, pools, tenants, n - 1);
      var before := RunOps(b, Fills(total, pools, n - 1));
      var cost := Reach(total, pools, pools[n - 1]);
      NextUnfilled(before, n - 1);
      FilledOneMore(before, n - 1);
      if cost >= 1 {
        FillOne(before, n - 1);
        RunSnoc(b, Fills(total, pools, n - 1), Acquire(pools[n - 1].key, cost, None));
      } else {
        assert Fills(total, pools, n) == Fills(total, pools, n - 1) + [];
        assert Fills(total, pools, n - 1) + [] == Fills(total, pools, n - 1);
      }
    }
  }

  lemma NoneFilled(b: Books)
    requires b.poolUse == map[]
    ensures Filled(b, 0)
  {}

  lemma NextUnfilled(b: Books, n: nat)
    requires Filled(b, n) && n < |b.pools|
    ensures Use(b.poolUse, b.pools[n].key) == 0
  {}

  lemma {:induction false} FilledSum(b: Books, n: nat)
    requires n <= |b.pools| && Filled(b, |b.pools|)
    ensures SumUse(b.pools[..n], b.poolUse) == SumReach(b.total, b.pools, b.pools[..n])
  {
    hide Reach;
    if n > 0 {
      FilledSum(b, n - 1);
      assert b.pools[..n][..n - 1] == b.pools[..n - 1];
      assert b.pools[..n][n - 1] == b.pools[n - 1];
    }
  }

  /** From empty, every run of acquires and releases keeps the units in flight over all pools within the total
      exactly when the most each pool can hold sums to at most the total. */
  lemma {:induction false} TotalKeptIff(total: int, pools: seq<Pool>, tenants: seq<TenantBudget>)
    requires ValidConfig(total, pools, tenants)
    ensures var b := Empty(total, pools, tenants);
      (forall ops :: Admissions(ops) ==> SumUse(pools, RunOps(b, ops).poolUse) <= total)
      <==> SumReach(total, pools, pools) <= total
  {
    hide Good, Filled, ValidConfig, Admissions;
    var b := Empty(total, pools, tenants);
    EmptyIsGood(total, pools, tenants);
    if SumReach(total, pools, pools) <= total {
      forall ops | Admissions(ops) ensures SumUse(pools, RunOps(b, ops).poolUse) <= total {
        AdmissionsKeepPools(b, ops);
        RunGood(b, ops);
        UseWithinReach(RunOps(b, ops), pools);
      }
    } else {
      var ops := Fills(total, pools, |pools|);
      FillsAdmit(total, pools, |pools|);
      FillsFill(total, pools, tenants, |pools|);
      FilledSum(RunOps(b, ops), |pools|);
      assert pools[..|pools|] == pools;
      assert SumUse(pools, RunOps(b, ops).poolUse) > total;
    }
  }

  // ----- the reserved floor -----

  lemma StepKeepsFloor(b: Books, op: Op, name: string)
    requires Find(b.pools, name).Some?
    ensures var q := Find(Step(b, op).0.pools, name);
      q.Some? && q.value.floor == Find(b.pools, name).value.floor
  {
    if op.AdjustCeiling? {
      hide Find, OtherFloors, SetCap;
      SetCapFind(b.pools, op.pool, op.cap, name);
    } else {
      hide AdjustCeilingStep, Find, OtherFloors;
    }
  }

  lemma {:induction false} RunKeepsFloor(b: Books, ops: seq<Op>, name: string)
    requires Find(b.pools, name).Some?
    ensures var q := Find(RunOps(b, ops).pools, name);
      q.Some? && q.value.floor == Find(b.pools, name).value.floor
    decreases |ops|
  {
    hide Step, Find;
    if ops != [] {
      StepKeepsFloor(b, ops[0], name);
      RunKeepsFloor(Step(b, ops[0]).0, ops[1..], name);
    }
  }

  /** The tenant's own burst, where it has a budget, leaves room for `cost`. */
  predicate TenantHasRoom(b: Books, pool: string, cost: int, tenant: Option<string>) {
    tenant.Some? && Find(b.tenants, (pool, tenant.value)).Some? ==>
      Use(b.tenantUse, (pool, tenant.value)) + cost <= Find(b.tenants, (pool, tenant.value)).value.cap
  }

  lemma FloorGranted(b: Books, name: string, cost: int, tenant: Option<string>)
    requires Good(b) && Find(b.pools, name).Some? && cost >= 1
    requires Use(b.poolUse, name) + cost <= Find(b.pools, name).value.floor
    ensures AcquireStep(b, name, cost, tenant).1 == Ok(Allowed) <==> TenantHasRoom(b, name, cost, tenant)
  {
    hide OtherFloors;
  }

  /** What the floors are for: after any run of operations on any pools, an acquire that stays within its pool's
      own reserved floor is granted, unless the tenant it names is at its own burst. */
  lemma {:induction false} ReservedIsAlwaysGranted(
    b: Books, ops: seq<Op>, name: string, cost: int, tenant: Option<string>)
    requires Good(b) && Find(b.pools, name).Some? && cost >= 1
    requires Use(RunOps(b, ops).poolUse, name) + cost <= Find(b.pools, name).value.floor
    ensures var r := RunOps(b, ops);
      AcquireStep(r, name, cost, tenant).1 == Ok(Allowed) <==> TenantHasRoom(r, name, cost, tenant)
  {
    hide Good, Find, AcquireStep, TenantHasRoom;
    RunGood(b, ops);
    RunKeepsFloor(b, ops, name);
    FloorGranted(RunOps(b, ops), name, cost, tenant);
  }
}
