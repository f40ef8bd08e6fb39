/** What is in flight, as a ledger of the answers given: every unit a run holds was granted and not given back.
    And when each operation succeeds, read off the books. */
module Ledger {
  import opened Common
  import opened Quotas
  import opened Budgets

  /** The answers of a run, in order. */
  function Answers(b: Books, ops: seq<Op>): (r: seq<Answer>)
    ensures |r| == |ops|
    decreases |ops|
  {
    if ops == [] then [] else [Step(b, ops[0]).1] + Answers(Step(b, ops[0]).0, ops[1..])
  }

  /** A release credits its pool when it succeeds, and also when it raises on the tenant. */
  predicate Credits(a: Answer) {
    a == Ok(Allowed) || (a.Err? && a.error.ReleaseExceedsTenant?)
  }

  function PoolEntry(op: Op, a: Answer, pool: string): int {
    if op.pool != pool then 0
    else
      match op
      case Acquire(_, cost, _) => if a == Ok(Allowed) then cost else 0
      case Release(_, cost, _) => if Credits(a) then -cost else 0
      case _ => 0
  }

  /** What the allowed acquires on a pool cost, less what the releases that credited it gave back. */
  function PoolBalance(ops: seq<Op>, answers: seq<Answer>, pool: string): int
    requires |ops| == |answers|
  {
    if ops == [] then 0 else PoolEntry(ops[0], answers[0], pool) + PoolBalance(ops[1..], answers[1..], pool)
  }

  function TenantEntry(op: Op, a: Answer, pool: string, who: string): int {
    if op.pool != pool || a != Ok(Allowed) then 0
    else
      match op
      case Acquire(_, cost, tenant) => if tenant == Some(who) then cost else 0
      case Release(_, cost, tenant) => if tenant == Some(who) then -cost else 0
      case _ => 0
  }

  function TenantBalance(ops: seq<Op>, answers: seq<Answer>, pool: string, who: string): int
    requires |ops| == |answers|
  {
    if ops == [] then 0
    else TenantEntry(ops[0], answers[0], pool, who) + TenantBalance(ops[1..], answers[1..], pool, who)
  }

  lemma PoolStep(b: Books, op: Op, pool: string)
    ensures Use(Step(b, op).0.poolUse, pool) == Use(b.poolUse, pool) + PoolEntry(op, Step(b, op).1, pool)
  {
    hide Find, OtherFloors, SetCap;
  }

  /** Conservation: after any run of operations whatever, what a pool holds is what it held at the start, plus the
      costs of its allowed acquires, less the costs of the releases that credited it. */
  lemma {:induction false} PoolLedger(b: Books, ops: seq<Op>, pool: string)
    ensures Use(RunOps(b, ops).poolUse, pool) == Use(b.poolUse, pool) + PoolBalance(ops, Answers(b, ops), pool)
    decreases |ops|
  {
    hide Step, PoolEntry, Use;
    if ops != [] {
      PoolStep(b, ops[0], pool);
      PoolLedger(Step(b, ops[0]).0, ops[1..], pool);
      assert Answers(b, ops)[1..] == Answers(Step(b, ops[0]).0, ops[1..]);
    }
  }

  ghost predicate HasBudget(b: Books, pool: string, who: string) {
    Find(b.tenants, (pool, who)).Some?
  }

  lemma TenantStep(b: Books, op: Op, pool: string, who: string)
    ensures HasBudget(Step(b, op).0, pool, who) <==> HasBudget(b, pool, who)
    ensures Use(Step(b, op).0.tenantUse, (pool, who)) == Use(b.tenantUse, (pool, who))
      + if HasBudget(b, pool, who) then TenantEntry(op, Step(b, op).1, pool, who) else 0
  {
    hide Find, OtherFloors, SetCap;
    if op.AdjustBurst? {
      SetCapFind(b.tenants, (op.pool, op.who), op.cap, (pool, who));
    }
  }

  /** The same for each tenant that has a budget; of a tenant that has none nothing is ever recorded. */
  lemma {:induction false} TenantLedger(b: Books, ops: seq<Op>, pool: string, who: string)
    ensures Use(RunOps(b, ops).tenantUse, (pool, who)) == Use(b.tenantUse, (pool, who))
      + if HasBudget(b, pool, who) then TenantBalance(ops, Answers(b, ops), pool, who) else 0
    decreases |ops|
  {
    hide Step, TenantEntry, Use, HasBudget;
    if ops != [] {
      TenantStep(b, ops[0], pool, who);
      TenantLedger(Step(b, ops[0]).0, ops[1..], pool, who);
      assert Answers(b, ops)[1..] == Answers(Step(b, ops[0]).0, ops[1..]);
    }
  }

  /** An allowed acquire can be given back: the release of the same cost for the same tenant is allowed, and
      leaves every pool and every tenant holding what it held before, and nothing else changed. */
  lemma {:induction false} ReleaseUndoesAcquire(b: Books, pool: string, cost: int, tenant: Option<string>)
    requires Good(b) && AcquireStep(b, pool, cost, tenant).1 == Ok(Allowed)
    ensures var (r, answer) := ReleaseStep(AcquireStep(b, pool, cost, tenant).0, pool, cost, tenant);
      && answer == Ok(Allowed)
      && (forall k :: Use(r.poolUse, k) == Use(b.poolUse, k))
      && (forall k :: Use(r.tenantUse, k) == Use(b.tenantUse, k))
      && r.total == b.total && r.pools == b.pools && r.tenants == b.tenants
  {
    hide OtherFloors;
    var q := Find(b.pools, pool).value;
    assert q in b.pools;
    assert tenant.Some? && Find(b.tenants, (pool, tenant.value)).Some? ==>
      Find(b.tenants, (pool, tenant.value)).value in b.tenants;
  }

  /** What is refused leaves no trace, but for a release that raises on its tenant: that one has already credited
      the pool. */
  lemma {:induction false} RefusalsLeaveNoTrace(b: Books, op: Op)
    ensures var (r, answer) := Step(b, op);
      if answer == Ok(Allowed) then true
      else if answer.Err? && answer.error.ReleaseExceedsTenant?
      then op.Release? && Use(r.poolUse, op.pool) == Use(b.poolUse, op.pool) - op.cost && r.tenantUse == b.tenantUse
      else r == b
  {
    hide Find, OtherFloors, SetCap;
  }

  // ----- when each operation succeeds -----

  ghost predicate Room(b: Books, who: Option<string>, pool: string, change: int) {
    forall q :: q in b.tenants && who == Some(q.key.1) && q.key.0 == pool ==>
      0 <= Use(b.tenantUse, q.key) + change <= q.cap
  }

  /** An acquire is allowed exactly when it asks for at least one unit of a known pool, fits under its ceiling,
      fits in its own floor or in what the other floors leave of the total, and leaves the tenant within its
      burst. */
  lemma {:induction false} AcquireAllowedIff(b: Books, pool: string, cost: int, tenant: Option<string>)
    requires Good(b)
    ensures AcquireStep(b, pool, cost, tenant).1 == Ok(Allowed) <==>
      cost >= 1 && Room(b, tenant, pool, cost)
      && exists q :: q in b.pools && q.key == pool && Fits(b, q, Use(b.poolUse, pool) + cost)
  {
    hide OtherFloors, SumFloors, Find, Fits;
    FindOnly(b.pools, pool);
    if tenant.Some? {
      FindOnly(b.tenants, (pool, tenant.value));
    }
    FitsMeans(b, pool, cost);
  }

  ghost predicate Fits(b: Books, q: Pool, held: int) {
    held <= q.cap && (held <= q.floor || held + OtherFloors(b.pools, q.key) <= b.total)
  }

  lemma FitsMeans(b: Books, pool: string, cost: int)
    ensures Find(b.pools, pool).Some? ==>
      var q := Find(b.pools, pool).value;
      var held := Use(b.poolUse, pool) + cost;
      Fits(b, q, held) <==> held <= q.cap && (held <= q.floor || held <= b.total - OtherFloors(b.pools, pool))
  {}

  lemma {:induction false} FindOnly<K>(qs: seq<Quota<K>>, k: K)
    requires Distinct(qs)
    ensures forall q :: q in qs && q.key == k ==> Find(qs, k) == Some(q)
    ensures Find(qs, k).Some? ==> Find(qs, k).value in qs && Find(qs, k).value.key == k
  {
    hide Distinct;
    forall q | q in qs && q.key == k ensures Find(qs, k) == Some(q) {
      FindIn(qs, q);
    }
  }

  /** A release succeeds exactly when it gives back at least one unit, no more than its pool holds and no more than
      its tenant holds. */
  lemma {:induction false} ReleaseAllowedIff(b: Books, pool: string, cost: int, tenant: Option<string>)
    requires Good(b)
    ensures ReleaseStep(b, pool, cost, tenant).1 == Ok(Allowed) <==>
      1 <= cost <= Use(b.poolUse, pool) && Room(b, tenant, pool, -cost) && exists q :: q in b.pools && q.key == pool
  {
    hide OtherFloors, SumFloors, Find;
    FindOnly(b.pools, pool);
    if tenant.Some? {
      FindOnly(b.tenants, (pool, tenant.value));
    }
  }

  ghost predicate CeilingFits(b: Books, q: Pool, cap: int) {
    Max(q.floor, Use(b.poolUse, q.key)) <= cap && cap + OtherFloors(b.pools, q.key) <= b.total
  }

  /** A ceiling moves exactly to where it covers the pool's floor and what it holds, and leaves the other floors
      room in the total; then no other quota changes. */
  lemma {:induction false} CeilingMovesIff(b: Books, pool: string, cap: int)
    requires Good(b)
    ensures var (r, answer) := AdjustCeilingStep(b, pool, cap);
      && (answer == Ok(Allowed) <==> exists q :: q in b.pools && q.key == pool && CeilingFits(b, q, cap))
      && (answer == Ok(Allowed) ==> |r.pools| == |b.pools| && forall i :: 0 <= i < |b.pools| ==>
            r.pools[i] == if b.pools[i].key == pool then b.pools[i].(cap := cap) else b.pools[i])
      && r == b.(pools := r.pools)
  {
    hide OtherFloors, SumFloors, Find, SetCap;
    FindOnly(b.pools, pool);
    SetCapAt(b.pools, pool, cap);
  }

  lemma {:induction false} BurstMovesIff(b: Books, pool: string, who: string, cap: int)
    requires Good(b)
    ensures var (r, answer) := AdjustBurstStep(b, pool, who, cap);
      && (answer == Ok(Allowed) <==>
          exists q :: q in b.tenants && q.key == (pool, who) && Max(q.floor, Use(b.tenantUse, q.key)) <= cap)
      && (answer == Ok(Allowed) ==> |r.tenants| == |b.tenants| && forall i :: 0 <= i < |b.tenants| ==>
            r.tenants[i] == if b.tenants[i].key == (pool, who) then b.tenants[i].(cap := cap) else b.tenants[i])
      && r == b.(tenants := r.tenants)
  {
    hide OtherFloors, SumFloors, Find, SetCap;
    FindOnly(b.tenants, (pool, who));
    SetCapAt(b.tenants, (pool, who), cap);
  }

  // ----- what a refusal says -----

  /** The reason a denial gives is the one that holds, first of those checked, with the numbers it holds by. */
  ghost predicate Justifies(b: Books, pool: string, cost: int, tenant: Option<string>, why: Denial) {
    match why
    case PoolUnknown =>
      forall q :: q in b.pools ==> q.key != pool
    case CeilingExceeded(inFlight, asked, ceiling) =>
      exists q :: q in b.pools && q.key == pool && inFlight == Use(b.poolUse, pool) && asked == cost
        && ceiling == q.cap && inFlight + asked > ceiling
    case FloorGuard(inFlight, asked, total, others) =>
      exists q :: q in b.pools && q.key == pool && inFlight == Use(b.poolUse, pool) && asked == cost
        && total == b.total && others == OtherFloors(b.pools, pool)
        && q.floor < inFlight + asked <= q.cap && inFlight + asked + others > total
    case BurstExceeded(inFlight, asked, burst) =>
      (exists q :: q in b.pools && q.key == pool && Fits(b, q, Use(b.poolUse, pool) + cost))
      && (exists t ::
            t in b.tenants && tenant.Some? && t.key == (pool, tenant.value)
            && inFlight == Use(b.tenantUse, t.key) && asked == cost && burst == t.cap && inFlight + asked > burst)
  }

  lemma {:induction false} DenialsAreJustified(b: Books, pool: string, cost: int, tenant: Option<string>)
    requires Good(b)
    ensures var answer := AcquireStep(b, pool, cost, tenant).1;
      && (answer.Err? <==> cost < 1)
      && (answer.Ok? && answer.value.Denied? ==> Justifies(b, pool, cost, tenant, answer.value.why))
  {
    hide OtherFloors, SumFloors, Find, Good;
    if Find(b.pools, pool).Some? {
      var q := Find(b.pools, pool).value;
      assert q in b.pools && q.key == pool;
      FitsMeans(b, pool, cost);
    }
    if tenant.Some? && Find(b.tenants, (pool, tenant.value)).Some? {
      var t := Find(b.tenants, (pool, tenant.value)).value;
      assert t in b.tenants && t.key == (pool, tenant.value);
    }
  }

  /** And so is the error a release or an adjustment raises. */
  ghost predicate Explains(b: Books, op: Op, e: Error) {
    match e
    case BadCost => (op.Acquire? || op.Release?) && op.cost < 1
    case UnknownPool => forall q :: q in b.pools ==> q.key != op.pool
    case ReleaseExceedsPool(inFlight) => op.Release? && inFlight == Use(b.poolUse, op.pool) && op.cost > inFlight
    case ReleaseExceedsTenant(inFlight) =>
      op.Release? && op.tenant.Some? && 1 <= op.cost <= Use(b.poolUse, op.pool)
      && HasBudget(b, op.pool, op.tenant.value)
      && inFlight == Use(b.tenantUse, (op.pool, op.tenant.value)) && op.cost > inFlight
    case NegativeCap => (op.AdjustCeiling? || op.AdjustBurst?) && op.cap < 0
    case UnknownTenantBudget => op.AdjustBurst? && !HasBudget(b, op.pool, op.who)
    case BelowFloor(floor) => (op.AdjustCeiling? || op.AdjustBurst?) && 0 <= op.cap < floor && FloorIs(b, op, floor)
    case BelowInFlight(inFlight) =>
      (op.AdjustCeiling? || op.AdjustBurst?) && 0 <= op.cap < inFlight
      && inFlight == if op.AdjustBurst? then Use(b.tenantUse, (op.pool, op.who)) else Use(b.poolUse, op.pool)
    case Oversubscribed(others) =>
      op.AdjustCeiling? && op.cap >= Use(b.poolUse, op.pool)
      && others == OtherFloors(b.pools, op.pool) && op.cap + others > b.total
  }

  ghost predicate FloorIs(b: Books, op: Op, floor: int) {
    if op.AdjustBurst? then exists q :: q in b.tenants && q.key == (op.pool, op.who) && q.floor == floor
    else exists q :: q in b.pools && q.key == op.pool && q.floor == floor
  }

  lemma {:induction false} ErrorsAreExplained(b: Books, op: Op)
    ensures Step(b, op).1.Err? ==> Explains(b, op, Step(b, op).1.error)
  {
    hide OtherFloors, SumFloors, Find, SetCap;
  }
}
