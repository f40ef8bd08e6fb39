/** The capacity budget controller: admission against pool ceilings, non-preemptible floors and
    tenant bursts. `BudgetController` is the mutable controller; `Step` says what each operation
    does to its books and what it answers. */
module Budgets {
  import opened Common
  import opened Quotas

  datatype Books = Books(
    total: int,
    pools: seq<Pool>,
    tenants: seq<TenantBudget>,
    poolUse: map<string, int>,
    tenantUse: map<(string, string), int>)

  datatype Denial =
    | PoolUnknown
    | CeilingExceeded(inFlight: int, cost: int, ceiling: int)
    | FloorGuard(inFlight: int, cost: int, total: int, othersReserved: int)
    | BurstExceeded(inFlight: int, cost: int, burst: int)

  datatype Decision = Allowed | Denied(why: Denial)

  /** What the source raises. */
  datatype Error =
    | BadCost
    | UnknownPool
    | ReleaseExceedsPool(inFlight: int)
    | ReleaseExceedsTenant(inFlight: int)
    | NegativeCap
    | UnknownTenantBudget
    | BelowFloor(floor: int)
    | BelowInFlight(inFlight: int)
    | Oversubscribed(othersReserved: int)

  datatype Op =
    | Acquire(pool: string, cost: int, tenant: Option<string>)
    | Release(pool: string, cost: int, tenant: Option<string>)
    | AdjustCeiling(pool: string, cap: int)
    | AdjustBurst(pool: string, who: string, cap: int)

  /** `Err` is a raised error; operations that return nothing answer `Ok(Allowed)`. */
  type Answer = Result<Decision, Error>

  /** What is in flight under a key; an absent key holds nothing. */
  function Use<K(==)>(m: map<K, int>, k: K): int {
    if k in m then m[k] else 0
  }

  // ----- what each operation does -----

  function AcquireStep(b: Books, pool: string, cost: int, tenant: Option<string>): (Books, Answer) {
    if cost < 1 then (b, Err(BadCost))
    else
      var p := Find(b.pools, pool);
      if p.None? then (b, Ok(Denied(PoolUnknown)))
      else
        var current := Use(b.poolUse, pool);
        if current + cost > p.value.cap
        then (b, Ok(Denied(CeilingExceeded(current, cost, p.value.cap))))
        else
          var others := OtherFloors(b.pools, pool);
          if current + cost > p.value.floor && current + cost > b.total - others
          then (b, Ok(Denied(FloorGuard(current, cost, b.total, others))))
          else
            var granted := b.(poolUse := b.poolUse[pool := current + cost]);
            if tenant.None? || Find(b.tenants, (pool, tenant.value)).None? then (granted, Ok(Allowed))
            else
              var tb := Find(b.tenants, (pool, tenant.value)).value;
              var used := Use(b.tenantUse, (pool, tenant.value));
              if used + cost > tb.cap then (b, Ok(Denied(BurstExceeded(used, cost, tb.cap))))
              else (granted.(tenantUse := b.tenantUse[(pool, tenant.value) := used + cost]), Ok(Allowed))
  }

  /** A release the tenant's own count does not cover raises after the pool was credited. */
  function ReleaseStep(b: Books, pool: string, cost: int, tenant: Option<string>): (Books, Answer) {
    if cost < 1 then (b, Err(BadCost))
    else if Find(b.pools, pool).None? then (b, Err(UnknownPool))
    else
      var current := Use(b.poolUse, pool);
      if cost > current then (b, Err(ReleaseExceedsPool(current)))
      else
        var credited := b.(poolUse := b.poolUse[pool := current - cost]);
        if tenant.None? || Find(b.tenants, (pool, tenant.value)).None? then (credited, Ok(Allowed))
        else
          var used := Use(b.tenantUse, (pool, tenant.value));
          if cost > used then (credited, Err(ReleaseExceedsTenant(used)))
          else (credited.(tenantUse := b.tenantUse[(pool, tenant.value) := used - cost]), Ok(Allowed))
  }

  function AdjustCeilingStep(b: Books, pool: string, cap: int): (Books, Answer) {
    if cap < 0 then (b, Err(NegativeCap))
    else
      var p := Find(b.pools, pool);
      if p.None? then (b, Err(UnknownPool))
      else if cap < p.value.floor then (b, Err(BelowFloor(p.value.floor)))
      else if cap < Use(b.poolUse, pool) then (b, Err(BelowInFlight(Use(b.poolUse, pool))))
      else
        var others := OtherFloors(b.pools, pool);
        if cap + others > b.total then (b, Err(Oversubscribed(others)))
        else (b.(pools := SetCap(b.pools, pool, cap)), Ok(Allowed))
  }

  function AdjustBurstStep(b: Books, pool: string, tenant: string, cap: int): (Books, Answer) {
    if cap < 0 then (b, Err(NegativeCap))
    else
      var tb := Find(b.tenants, (pool, tenant));
      if tb.None? then (b, Err(UnknownTenantBudget))
      else if cap < tb.value.floor then (b, Err(BelowFloor(tb.value.floor)))
      else if cap < Use(b.tenantUse, (pool, tenant)) then (b, Err(BelowInFlight(Use(b.tenantUse, (pool, tenant)))))
      else (b.(tenants := SetCap(b.tenants, (pool, tenant), cap)), Ok(Allowed))
  }

  function Step(b: Books, op: Op): (Books, Answer) {
    match op
    case Acquire(pool, cost, tenant) => AcquireStep(b, pool, cost, tenant)
    case Release(pool, cost, tenant) => ReleaseStep(b, pool, cost, tenant)
    case AdjustCeiling(pool, cap) => AdjustCeilingStep(b, pool, cap)
    case AdjustBurst(pool, who, cap) => AdjustBurstStep(b, pool, who, cap)
  }

  function RunOps(b: Books, ops: seq<Op>): Books
    decreases |ops|
  {
    if ops == [] then b else RunOps(Step(b, ops[0]).0, ops[1..])
  }

  // ----- what every operation keeps -----

  /** What the constructor checks. */
  ghost predicate ValidConfig(total: int, pools: seq<Pool>, tenants: seq<TenantBudget>) {
    && total >= 0
    && (forall q :: q in pools ==> ValidQuota(q) && q.key != "")
    && Distinct(pools)
    && SumFloors(pools) <= total
    && (forall q :: q in tenants ==> ValidQuota(q) && q.key.0 != "" && q.key.1 != "" && Find(pools, q.key.0).Some?)
    && Distinct(tenants)
  }

  /** No pool holds more than its ceiling, nor more than the total leaves beside the other pools'
      reserved floors; no tenant holds more than its burst. */
  ghost predicate Within(b: Books) {
    && (forall q :: q in b.pools ==>
          0 <= Use(b.poolUse, q.key) <= q.cap && Use(b.poolUse, q.key) + OtherFloors(b.pools, q.key) <= b.total)
    && (forall q :: q in b.tenants ==> 0 <= Use(b.tenantUse, q.key) <= q.cap)
  }

  ghost predicate Good(b: Books) {
    ValidConfig(b.total, b.pools, b.tenants) && Within(b)
  }

  lemma AcquireGood(b: Books, pool: string, cost: int, tenant: Option<string>)
    requires Good(b)
    ensures Good(AcquireStep(b, pool, cost, tenant).0)
  {
    hide Find, OtherFloors, SetCap, SumFloors;
    var r := AcquireStep(b, pool, cost, tenant).0;
    if r != b {
      FloorsSplit(b.pools, pool);
      FindIn(b.pools, Find(b.pools, pool).value);
      forall q | q in r.pools
        ensures 0 <= Use(r.poolUse, q.key) <= q.cap && Use(r.poolUse, q.key) + OtherFloors(r.pools, q.key) <= r.total
      {
        FindIn(b.pools, q);
      }
      forall q | q in r.tenants ensures 0 <= Use(r.tenantUse, q.key) <= q.cap {
        FindIn(b.tenants, q);
      }
    }
  }

  lemma ReleaseGood(b: Books, pool: string, cost: int, tenant: Option<string>)
    requires Good(b)
    ensures Good(ReleaseStep(b, pool, cost, tenant).0)
  {
    hide Find, OtherFloors, SetCap, SumFloors;
    var r := ReleaseStep(b, pool, cost, tenant).0;
    forall q | q in r.tenants ensures 0 <= Use(r.tenantUse, q.key) <= q.cap {
      FindIn(b.tenants, q);
    }
  }

  lemma AdjustCeilingConfig(b: Books, pool: string, cap: int)
    requires Good(b) && AdjustCeilingStep(b, pool, cap).0 != b
    ensures ValidConfig(b.total, SetCap(b.pools, pool, cap), b.tenants)
  {
    hide Find, OtherFloors, SetCap, SumFloors, Within;
    SetCapAt(b.pools, pool, cap);
    SetCapFind(b.pools, pool, cap, pool);
    forall q | q in SetCap(b.pools, pool, cap) ensures ValidQuota(q) && q.key != "" {
      var q0 := SetCapOrigin(b.pools, pool, cap, q);
    }
    forall q | q in b.tenants ensures Find(SetCap(b.pools, pool, cap), q.key.0).Some? {
      SetCapFind(b.pools, pool, cap, q.key.0);
    }
  }

  lemma AdjustCeilingGood(b: Books, pool: string, cap: int)
    requires Good(b)
    ensures Good(AdjustCeilingStep(b, pool, cap).0)
  {
    hide Find, OtherFloors, SetCap, ValidConfig;
    var r := AdjustCeilingStep(b, pool, cap).0;
    if r != b {
      AdjustCeilingConfig(b, pool, cap);
      ConfigDistinct(b);
      forall q | q in r.pools
        ensures 0 <= Use(b.poolUse, q.key) <= q.cap && Use(b.poolUse, q.key) + OtherFloors(r.pools, q.key) <= b.total
      {
        var q0 := SetCapOrigin(b.pools, pool, cap, q);
        SetCapFind(b.pools, pool, cap, q.key);
      }
    }
  }

  lemma ConfigDistinct(b: Books)
    requires ValidConfig(b.total, b.pools, b.tenants)
    ensures Distinct(b.pools) && Distinct(b.tenants)
  {
  }

  lemma AdjustBurstGood(b: Books, pool: string, tenant: string, cap: int)
    requires Good(b)
    ensures Good(AdjustBurstStep(b, pool, tenant, cap).0)
  {
    hide Find, OtherFloors, SetCap, SumFloors;
    var r := AdjustBurstStep(b, pool, tenant, cap).0;
    if r != b {
      SetCapAt(b.tenants, (pool, tenant), cap);
      forall q | q in r.tenants
        ensures ValidQuota(q) && q.key.0 != "" && q.key.1 != "" && Find(b.pools, q.key.0).Some?
        ensures 0 <= Use(b.tenantUse, q.key) <= q.cap
      {
        var q0 := SetCapOrigin(b.tenants, (pool, tenant), cap, q);
      }
    }
  }

  /** In-flight stays within ceiling, burst, and total minus the other floors, throughout any run. */
  lemma {:induction false} RunGood(b: Books, ops: seq<Op>)
    requires Good(b)
    ensures Good(RunOps(b, ops))
    decreases |ops|
  {
    hide Good, AcquireStep, ReleaseStep, AdjustCeilingStep, AdjustBurstStep;
    if ops != [] {
      match ops[0] {
        case Acquire(pool, cost, tenant) => AcquireGood(b, pool, cost, tenant);
        case Release(pool, cost, tenant) => ReleaseGood(b, pool, cost, tenant);
        case AdjustCeiling(pool, cap) => AdjustCeilingGood(b, pool, cap);
        case AdjustBurst(pool, who, cap) => AdjustBurstGood(b, pool, who, cap);
      }
      RunGood(Step(b, ops[0]).0, ops[1..]);
    }
  }

  // ----- pools do not interfere -----

  /** The answers a run gives to the operations on one pool. */
  function AnswersFor(b: Books, ops: seq<Op>, pool: string): seq<Answer>
    decreases |ops|
  {
    if ops == [] then []
    else
      var s := Step(b, ops[0]);
      (if ops[0].pool == pool then [s.1] else []) + AnswersFor(s.0, ops[1..], pool)
  }

  function OnPool(ops: seq<Op>, pool: string): seq<Op> {
    if ops == [] then []
    else (if ops[0].pool == pool then [ops[0]] else []) + OnPool(ops[1..], pool)
  }

  /** Two books agree on everything that concerns `pool`. */
  ghost predicate SamePool(a: Books, b: Books, pool: string) {
    && a.total == b.total
    && Find(a.pools, pool) == Find(b.pools, pool)
    && OtherFloors(a.pools, pool) == OtherFloors(b.pools, pool)
    && Use(a.poolUse, pool) == Use(b.poolUse, pool)
    && (forall t :: Find(a.tenants, (pool, t)) == Find(b.tenants, (pool, t)))
    && (forall t :: Use(a.tenantUse, (pool, t)) == Use(b.tenantUse, (pool, t)))
  }

  lemma OwnAcquire(a: Books, b: Books, pool: string, cost: int, tenant: Option<string>)
    requires SamePool(a, b, pool)
    ensures AcquireStep(a, pool, cost, tenant).1 == AcquireStep(b, pool, cost, tenant).1
    ensures SamePool(AcquireStep(a, pool, cost, tenant).0, AcquireStep(b, pool, cost, tenant).0, pool)
  {
    hide Find, OtherFloors;
  }

  lemma OwnRelease(a: Books, b: Books, pool: string, cost: int, tenant: Option<string>)
    requires SamePool(a, b, pool)
    ensures ReleaseStep(a, pool, cost, tenant).1 == ReleaseStep(b, pool, cost, tenant).1
    ensures SamePool(ReleaseStep(a, pool, cost, tenant).0, ReleaseStep(b, pool, cost, tenant).0, pool)
  {
    hide Find, OtherFloors;
  }

  lemma OwnCeiling(a: Books, b: Books, pool: string, cap: int)
    requires SamePool(a, b, pool)
    ensures AdjustCeilingStep(a, pool, cap).1 == AdjustCeilingStep(b, pool, cap).1
    ensures SamePool(AdjustCeilingStep(a, pool, cap).0, AdjustCeilingStep(b, pool, cap).0, pool)
  {
    hide Find, OtherFloors, SetCap;
    SetCapFind(a.pools, pool, cap, pool);
    SetCapFind(b.pools, pool, cap, pool);
  }

  lemma OwnBurst(a: Books, b: Books, pool: string, who: string, cap: int)
    requires SamePool(a, b, pool)
    ensures AdjustBurstStep(a, pool, who, cap).1 == AdjustBurstStep(b, pool, who, cap).1
    ensures SamePool(AdjustBurstStep(a, pool, who, cap).0, AdjustBurstStep(b, pool, who, cap).0, pool)
  {
    var key := (pool, who);
    forall t ensures Find(SetCap(a.tenants, key, cap), (pool, t)) == Find(SetCap(b.tenants, key, cap), (pool, t)) {
      SetCapFind(a.tenants, key, cap, (pool, t));
      SetCapFind(b.tenants, key, cap, (pool, t));
    }
  }

  lemma OwnStep(a: Books, b: Books, op: Op)
    requires SamePool(a, b, op.pool)
    ensures Step(a, op).1 == Step(b, op).1
    ensures SamePool(Step(a, op).0, Step(b, op).0, op.pool)
  {
    hide SamePool, AcquireStep, ReleaseStep, AdjustCeilingStep, AdjustBurstStep;
    match op
    case Acquire(pool, cost, tenant) => OwnAcquire(a, b, pool, cost, tenant);
    case Release(pool, cost, tenant) => OwnRelease(a, b, pool, cost, tenant);
    case AdjustCeiling(pool, cap) => OwnCeiling(a, b, pool, cap);
    case AdjustBurst(pool, who, cap) => OwnBurst(a, b, pool, who, cap);
  }

  lemma OtherAdmission(b: Books, op: Op, pool: string)
    requires op.pool != pool && (op.Acquire? || op.Release?)
    ensures SamePool(Step(b, op).0, b, pool)
  {
    hide Find, OtherFloors, AdjustCeilingStep, AdjustBurstStep;
  }

  lemma OtherAdjustment(b: Books, op: Op, pool: string)
    requires op.pool != pool && (op.AdjustCeiling? || op.AdjustBurst?)
    ensures SamePool(Step(b, op).0, b, pool)
  {
    hide Find, OtherFloors, SetCap, AcquireStep, ReleaseStep;
    match op
    case AdjustCeiling(other, cap) =>
      SetCapFind(b.pools, other, cap, pool);
    case AdjustBurst(other, who, cap) =>
      forall t ensures Find(SetCap(b.tenants, (other, who), cap), (pool, t)) == Find(b.tenants, (pool, t)) {
        SetCapFind(b.tenants, (other, who), cap, (pool, t));
      }
  }

  lemma {:induction false} NonInterferenceFrom(a: Books, b: Books, ops: seq<Op>, pool: string)
    requires SamePool(a, b, pool)
    ensures AnswersFor(a, ops, pool) == AnswersFor(b, OnPool(ops, pool), pool)
    ensures SamePool(RunOps(a, ops), RunOps(b, OnPool(ops, pool)), pool)
    decreases |ops|
  {
    hide Step;
    if ops != [] {
      var next := Step(a, ops[0]).0;
      if ops[0].pool == pool {
        OwnStep(a, b, ops[0]);
        assert OnPool(ops, pool)[1..] == OnPool(ops[1..], pool);
        NonInterferenceFrom(next, Step(b, ops[0]).0, ops[1..], pool);
      } else {
        if ops[0].Acquire? || ops[0].Release? {
          OtherAdmission(a, ops[0], pool);
        } else {
          OtherAdjustment(a, ops[0], pool);
        }
        SamePoolTrans(next, a, b, pool);
        assert OnPool(ops, pool) == OnPool(ops[1..], pool);
        NonInterferenceFrom(next, b, ops[1..], pool);
      }
    }
  }

  lemma SamePoolTrans(a: Books, b: Books, d: Books, pool: string)
    requires SamePool(a, b, pool) && SamePool(b, d, pool)
    ensures SamePool(a, d, pool)
  {
    hide Find, OtherFloors;
  }

  /** Every answer a pool gets in a run is the one it would get had no operation touched any other
      pool, and so is everything the run leaves recorded about it. */
  lemma PoolNonInterference(b: Books, ops: seq<Op>, pool: string)
    ensures AnswersFor(b, ops, pool) == AnswersFor(b, OnPool(ops, pool), pool)
    ensures SamePool(RunOps(b, ops), RunOps(b, OnPool(ops, pool)), pool)
  {
    NonInterferenceFrom(b, b, ops, pool);
  }

  // ----- the mutable controller -----

  datatype ConfigError =
    | BadTotal
    | BadPool
    | DuplicatePool
    | FloorsExceedTotal
    | BadTenant
    | UnknownTenantPool
    | DuplicateTenant

  /** What is wrong with the pools of a configuration that is refused with this error. */
  ghost predicate FaultyPools(total: int, pools: seq<Pool>, error: ConfigError) {
    match error
    case BadTotal => total < 0
    case BadPool => exists q :: q in pools && (q.key == "" || q.floor < 0 || q.cap < q.floor)
    case DuplicatePool => exists i, j :: 0 <= i < j < |pools| && pools[i].key == pools[j].key
    case FloorsExceedTotal => SumFloors(pools) > total
    case _ => false
  }

  /** And with its tenants. */
  ghost predicate FaultyTenants(pools: seq<Pool>, tenants: seq<TenantBudget>, error: ConfigError) {
    match error
    case BadTenant => exists q :: q in tenants && (q.key.0 == "" || q.key.1 == "" || q.floor < 0 || q.cap < q.floor)
    case UnknownTenantPool => exists q :: q in tenants && forall p :: p in pools ==> p.key != q.key.0
    case DuplicateTenant => exists i, j :: 0 <= i < j < |tenants| && tenants[i].key == tenants[j].key
    case _ => false
  }

  class BudgetController {
    const total: int
    var pools: seq<Pool>
    var tenants: seq<TenantBudget>
    var poolUse: map<string, int>
    var tenantUse: map<(string, string), int>

    ghost function State(): Books
      reads this
    {
      Books(total, pools, tenants, poolUse, tenantUse)
    }

    ghost predicate Valid()
      reads this
    {
      Good(State())
    }

    constructor (total: int, pools: seq<Pool>, tenants: seq<TenantBudget>)
      requires ValidConfig(total, pools, tenants)
      ensures Valid()
      ensures State() == Books(total, pools, tenants, map[], map[])
    {
      this.total, this.pools, this.tenants := total, pools, tenants;
      poolUse, tenantUse := map[], map[];
      new;
      forall q | q in pools ensures OtherFloors(pools, q.key) <= total {
        FloorsSplit(pools, q.key);
        FindIn(pools, q);
      }
    }

    /** The checks the source makes on construction, raising on the first that fails. */
    static method Build(total: int, pools: seq<Pool>, tenants: seq<TenantBudget>)
      returns (r: Result<BudgetController, ConfigError>)
      ensures r.Ok? <==> ValidConfig(total, pools, tenants)
      ensures r.Err? ==> FaultyPools(total, pools, r.error) || FaultyTenants(pools, tenants, r.error)
      ensures r.Ok? ==> fresh(r.value) && r.value.Valid()
      ensures r.Ok? ==> r.value.State() == Books(total, pools, tenants, map[], map[])
    {
      var bad := CheckPools(total, pools);
      if bad.Some? {
        return Err(bad.value);
      }
      bad := CheckTenants(pools, tenants);
      if bad.Some? {
        return Err(bad.value);
      }
      var c := new BudgetController(total, pools, tenants);
      return Ok(c);
    }

    static method CheckPools(total: int, pools: seq<Pool>) returns (bad: Option<ConfigError>)
      ensures bad.None? <==> ValidConfig(total, pools, [])
      ensures bad.Some? ==> FaultyPools(total, pools, bad.value)
    {
      if total < 0 {
        return Some(BadTotal);
      }
      var seen: set<string> := {};
      for i := 0 to |pools|
        invariant forall k :: k in seen <==> exists j :: 0 <= j < i && pools[j].key == k
        invariant forall j :: 0 <= j < i ==> ValidQuota(pools[j]) && pools[j].key != ""
        invariant forall j, k :: 0 <= j < k < i ==> pools[j].key != pools[k].key
      {
        var p := pools[i];
        if p.key == "" || p.floor < 0 || p.cap < p.floor {
          assert p in pools;
          return Some(BadPool);
        }
        if p.key in seen {
          return Some(DuplicatePool);
        }
        seen := seen + {p.key};
      }
      var reserved := 0;
      for i := 0 to |pools|
        invariant reserved + SumFloors(pools[i..]) == SumFloors(pools)
      {
        reserved := reserved + pools[i].floor;
      }
      if reserved > total {
        return Some(FloorsExceedTotal);
      }
      return None;
    }

    static method CheckTenants(pools: seq<Pool>, tenants: seq<TenantBudget>) returns (bad: Option<ConfigError>)
      ensures bad.None? <==> Distinct(tenants) && forall q :: q in tenants ==>
        ValidQuota(q) && q.key.0 != "" && q.key.1 != "" && Find(pools, q.key.0).Some?
      ensures bad.Some? ==> FaultyTenants(pools, tenants, bad.value)
    {
      var seen: set<(string, string)> := {};
      for i := 0 to |tenants|
        invariant forall k :: k in seen <==> exists j :: 0 <= j < i && tenants[j].key == k
        invariant forall j :: 0 <= j < i ==> ValidQuota(tenants[j]) && tenants[j].key.0 != "" && tenants[j].key.1 != ""
        invariant forall j :: 0 <= j < i ==> Find(pools, tenants[j].key.0).Some?
        invariant forall j, k :: 0 <= j < k < i ==> tenants[j].key != tenants[k].key
      {
        var t := tenants[i];
        assert t in tenants;
        if t.key.0 == "" || t.key.1 == "" || t.floor < 0 || t.cap < t.floor {
          return Some(BadTenant);
        }
        var p := Find(pools, t.key.0);
        if p.None? {
          return Some(UnknownTenantPool);
        }
        if t.key in seen {
          return Some(DuplicateTenant);
        }
        seen := seen + {t.key};
      }
      return None;
    }

    method PoolByName(name: string) returns (r: Option<Pool>)
      ensures r == Find(pools, name)
    {
      for i := 0 to |pools|
        invariant Find(pools, name) == Find(pools[i..], name)
      {
        if pools[i].key == name {
          return Some(pools[i]);
        }
      }
      return None;
    }

    method TenantBudgetOf(pool: string, tenant: string) returns (r: Option<TenantBudget>)
      ensures r == Find(tenants, (pool, tenant))
    {
      for i := 0 to |tenants|
        invariant Find(tenants, (pool, tenant)) == Find(tenants[i..], (pool, tenant))
      {
        if tenants[i].key == (pool, tenant) {
          return Some(tenants[i]);
        }
      }
      return None;
    }

    method OthersReserved(name: string) returns (sum: int)
      ensures sum == OtherFloors(pools, name)
    {
      sum := 0;
      for i := 0 to |pools|
        invariant sum + OtherFloors(pools[i..], name) == OtherFloors(pools, name)
      {
        if pools[i].key != name {
          sum := sum + pools[i].floor;
        }
      }
    }

    method AcquireCost(pool: string, cost: int, tenant: Option<string>) returns (answer: Answer)
      requires Valid()
      modifies this`poolUse, this`tenantUse
      ensures Valid()
      ensures (State(), answer) == Step(old(State()), Acquire(pool, cost, tenant))
    {
      hide Good, Find, OtherFloors, SetCap, ReleaseStep, AdjustCeilingStep, AdjustBurstStep;
      AcquireGood(State(), pool, cost, tenant);
      if cost < 1 {
        return Err(BadCost);
      }
      var p := PoolByName(pool);
      if p.None? {
        return Ok(Denied(PoolUnknown));
      }
      var current := Use(poolUse, pool);
      if current + cost > p.value.cap {
        return Ok(Denied(CeilingExceeded(current, cost, p.value.cap)));
      }
      if current + cost > p.value.floor {
        var others := OthersReserved(pool);
        if current + cost > total - others {
          return Ok(Denied(FloorGuard(current, cost, total, others)));
        }
      }
      if tenant.Some? {
        var tb := TenantBudgetOf(pool, tenant.value);
        if tb.Some? {
          var key := (pool, tenant.value);
          var used := Use(tenantUse, key);
          if used + cost > tb.value.cap {
            return Ok(Denied(BurstExceeded(used, cost, tb.value.cap)));
          }
          tenantUse := tenantUse[key := used + cost];
        }
      }
      poolUse := poolUse[pool := current + cost];
      return Ok(Allowed);
    }

    method ReleaseCost(pool: string, cost: int, tenant: Option<string>) returns (answer: Answer)
      requires Valid()
      modifies this`poolUse, this`tenantUse
      ensures Valid()
      ensures (State(), answer) == Step(old(State()), Release(pool, cost, tenant))
    {
      hide Good, Find, OtherFloors, SetCap, AcquireStep, AdjustCeilingStep, AdjustBurstStep;
      ReleaseGood(State(), pool, cost, tenant);
      if cost < 1 {
        return Err(BadCost);
      }
      var p := PoolByName(pool);
      if p.None? {
        return Err(UnknownPool);
      }
      var current := Use(poolUse, pool);
      if cost > current {
        return Err(ReleaseExceedsPool(current));
      }
      poolUse := poolUse[pool := current - cost];
      if tenant.Some? {
        var tb := TenantBudgetOf(pool, tenant.value);
        if tb.Some? {
          var key := (pool, tenant.value);
          var used := Use(tenantUse, key);
          if cost > used {
            return Err(ReleaseExceedsTenant(used));
          }
          tenantUse := tenantUse[key := used - cost];
        }
      }
      return Ok(Allowed);
    }

    /** The quotas rebuilt one by one, the named one with its new cap. */
    static method WithCap<K(==)>(qs: seq<Quota<K>>, k: K, cap: int) returns (r: seq<Quota<K>>)
      ensures r == SetCap(qs, k, cap)
    {
      r := [];
      for i := 0 to |qs|
        invariant r + SetCap(qs[i..], k, cap) == SetCap(qs, k, cap)
      {
        r := r + [if qs[i].key == k then qs[i].(cap := cap) else qs[i]];
      }
      assert qs[|qs|..] == [];
    }

    method SetCeiling(pool: string, cap: int) returns (answer: Answer)
      requires Valid()
      modifies this`pools
      ensures Valid()
      ensures (State(), answer) == Step(old(State()), AdjustCeiling(pool, cap))
    {
      hide Good, AcquireStep, ReleaseStep, AdjustBurstStep, Find, OtherFloors, SetCap;
      AdjustCeilingGood(State(), pool, cap);
      if cap < 0 {
        return Err(NegativeCap);
      }
      var p := PoolByName(pool);
      if p.None? {
        return Err(UnknownPool);
      }
      if cap < p.value.floor {
        return Err(BelowFloor(p.value.floor));
      }
      var inFlight := Use(poolUse, pool);
      if cap < inFlight {
        return Err(BelowInFlight(inFlight));
      }
      var others := OthersReserved(pool);
      if cap + others > total {
        return Err(Oversubscribed(others));
      }
      pools := WithCap(pools, pool, cap);
      return Ok(Allowed);
    }

    method SetBurst(pool: string, tenant: string, cap: int) returns (answer: Answer)
      requires Valid()
      modifies this`tenants
      ensures Valid()
      ensures (State(), answer) == Step(old(State()), AdjustBurst(pool, tenant, cap))
    {
      hide Good, AcquireStep, ReleaseStep, AdjustCeilingStep, Find, OtherFloors, SetCap;
      AdjustBurstGood(State(), pool, tenant, cap);
      if cap < 0 {
        return Err(NegativeCap);
      }
      var tb := TenantBudgetOf(pool, tenant);
      if tb.None? {
        return Err(UnknownTenantBudget);
      }
      if cap < tb.value.floor {
        return Err(BelowFloor(tb.value.floor));
      }
      var inFlight := Use(tenantUse, (pool, tenant));
      if cap < inFlight {
        return Err(BelowInFlight(inFlight));
      }
      tenants := WithCap(tenants, (pool, tenant), cap);
      return Ok(Allowed);
    }
  }
}
