/** Where every cap stands after a rebalance: a slack quota is down by the whole units it gives, a stressed one is
    up by its even share of what was given as far as its room goes, and every other one is where it was. */
module Caps {
  import opened Common
  import opened Quotas
  import opened Budgets
  import opened Allocation
  import opened Rebalancer
  import opened Rebalancing

  // ----- the load, read off its fields -----

  predicate Hot<K>(p: Policy, l: Load<K>) {
    l.q.cap > 0 && l.inFlight as real >= p.stress * l.q.cap as real
  }

  predicate Cold<K>(p: Policy, l: Load<K>) {
    !Hot(p, l) && (l.q.cap <= 0 || l.inFlight as real <= p.slack * l.q.cap as real)
  }

  function HotCount<K>(p: Policy, ls: seq<Load<K>>): nat {
    if ls == [] then 0 else HotCount(p, ls[..|ls| - 1]) + if Hot(p, ls[|ls| - 1]) then 1 else 0
  }

  /** A quota is stressed exactly at a share of `stress` of its cap or more, and slack exactly at one of `slack` or
      less; a quota without any cap is slack. */
  lemma {:induction false} StressMeans<K>(p: Policy, l: Load<K>)
    requires ValidPolicy(p)
    ensures IsStressed(p, l) <==> Hot(p, l)
    ensures IsSlack(p, l) <==> Cold(p, l)
  {
    if l.q.cap > 0 {
      QuotientAtLeast(l.inFlight as real, l.q.cap as real, p.stress);
      QuotientAtMost(l.inFlight as real, l.q.cap as real, p.slack);
    }
  }

  lemma QuotientAtLeast(a: real, b: real, c: real)
    requires b > 0.0
    ensures a / b >= c <==> a >= c * b
  {
    var d := a / b;
    assert a == d * b;
    if d >= c {
      assert (d - c) * b >= 0.0;
    } else {
      assert (c - d) * b > 0.0;
    }
  }

  lemma QuotientAtMost(a: real, b: real, c: real)
    requires b > 0.0
    ensures a / b <= c <==> a <= c * b
  {
    var d := a / b;
    assert a == d * b;
    if d <= c {
      assert (c - d) * b >= 0.0;
    } else {
      assert (d - c) * b > 0.0;
    }
  }

  /** A quota has excess exactly where more is in flight than its cap, and headroom exactly where its cap is above
      both its floor and what is in flight; and then by the difference. */
  lemma {:induction false} RoomMeans<K>(l: Load<K>)
    ensures Excess(l) > 0 <==> l.inFlight > l.q.cap
    ensures Headroom(l) > 0 <==> l.q.floor < l.q.cap && l.inFlight < l.q.cap
    ensures Excess(l) > 0 ==> l.q.cap + Excess(l) == l.inFlight
    ensures Headroom(l) > 0 ==> l.q.cap - Headroom(l) == Max(l.q.floor, l.inFlight)
  {}

  /** There are enough stressed quotas and a slack one. */
  ghost predicate Cascading<K>(p: Policy, ls: seq<Load<K>>) {
    HotCount(p, ls) >= p.minStressed && exists i :: 0 <= i < |ls| && Cold(p, ls[i])
  }

  /** The whole units a slack quota gives: the fraction of what lies between its cap and the higher of floor and
      in-flight, rounded down. */
  function Gift<K>(p: Policy, l: Load<K>): int {
    ((l.q.cap - Max(l.q.floor, l.inFlight)) as real * p.fraction).Floor
  }

  function Offered<K>(p: Policy, ls: seq<Load<K>>): int {
    if ls == [] then 0
    else Offered(p, ls[..|ls| - 1]) + if Cold(p, ls[|ls| - 1]) then Gift(p, ls[|ls| - 1]) else 0
  }

  /** The i-th quota's even share of what is offered, where it is stressed: the first of them take the remainder. */
  function ShareOf<K>(p: Policy, ls: seq<Load<K>>, i: nat): int
    requires i < |ls|
  {
    if HotCount(p, ls) == 0 then 0
    else EvenShare(Offered(p, ls), HotCount(p, ls), HotCount(p, ls[..i]))
  }

  function EvenShare(total: int, n: nat, rank: nat): int
    requires n > 0
  {
    total / n + if rank < total % n then 1 else 0
  }

  /** The cap the i-th quota ends up with, where `room` is the most it may have. */
  function NewCap<K>(p: Policy, ls: seq<Load<K>>, i: nat, room: Option<int>): int
    requires i < |ls|
  {
    var cap := ls[i].q.cap;
    if Cold(p, ls[i]) then cap - Gift(p, ls[i])
    else if Hot(p, ls[i]) then Raised(cap, ShareOf(p, ls, i), room)
    else cap
  }

  function Raised(cap: int, share: int, room: Option<int>): int {
    if share <= 0 then cap
    else if room.Some? then Min(cap + share, room.value)
    else cap + share
  }

  // ----- the lists the rebalancer works on -----

  lemma {:induction false} StressedCount<K>(p: Policy, ls: seq<Load<K>>)
    requires ValidPolicy(p)
    ensures |Stressed(p, ls)| == HotCount(p, ls)
  {
    hide IsStressed, Hot;
    if ls != [] {
      StressedCount(p, ls[..|ls| - 1]);
      StressMeans(p, ls[|ls| - 1]);
    }
  }

  /** A stressed quota comes, among the stressed ones, after as many as there are before it. */
  lemma {:induction false} StressedRank<K>(p: Policy, ls: seq<Load<K>>, i: nat)
    requires ValidPolicy(p) && i < |ls| && IsStressed(p, ls[i])
    ensures HotCount(p, ls[..i]) < |Stressed(p, ls)| && Stressed(p, ls)[HotCount(p, ls[..i])] == ls[i]
  {
    hide IsStressed, Hot;
    var n := |ls| - 1;
    if i < n {
      StressedRank(p, ls[..n], i);
      assert ls[..n][..i] == ls[..i];
    } else {
      StressedCount(p, ls[..n]);
    }
  }

  lemma {:induction false} CascadesMeans<K>(p: Policy, ls: seq<Load<K>>)
    requires ValidPolicy(p)
    ensures Cascades(p, ls) <==> Cascading(p, ls)
  {
    StressedCount(p, ls);
    if |Slack(p, ls)| >= 1 {
      var i := SlackOrigin(p, ls, 0);
      StressMeans(p, ls[i]);
    }
    if i :| 0 <= i < |ls| && Cold(p, ls[i]) {
      StressMeans(p, ls[i]);
      var a := SlackIndex(p, ls, i);
    }
  }

  ghost predicate WithinCaps<K>(ls: seq<Load<K>>) {
    forall i :: 0 <= i < |ls| ==> Max(ls[i].q.floor, ls[i].inFlight) <= ls[i].q.cap
  }

  lemma GiftMeans<K>(p: Policy, l: Load<K>)
    requires ValidPolicy(p) && Max(l.q.floor, l.inFlight) <= l.q.cap
    ensures Donation(Headroom(l), p.fraction) == Gift(p, l)
  {}

  lemma NothingToSum<K>()
    ensures Sum<K>([]) == 0
  {}

  lemma {:induction false} OfferedMeans<K>(p: Policy, ls: seq<Load<K>>)
    requires ValidPolicy(p) && WithinCaps(ls)
    ensures Sum(Donations(HeadroomItems(Slack(p, ls)), p.fraction)) == Offered(p, ls)
  {
    hide IsStressed, Hot, Cold, Headroom, Gift, Sum, Donation;
    if ls == [] {
      NothingToSum<K>();
    } else {
      var n := |ls| - 1;
      OfferedMeans(p, ls[..n]);
      StressMeans(p, ls[n]);
      var before, after := Slack(p, ls[..n]), Slack(p, ls);
      if IsSlack(p, ls[n]) {
        GiftMeans(p, ls[n]);
        var given := Donations(HeadroomItems(after), p.fraction);
        assert given[..|before|] == Donations(HeadroomItems(before), p.fraction);
        SumSnoc(given);
      } else {
        assert after == before;
      }
    }
  }

  /** What the signals say: which pools and tenants are stressed and which slack, how many of each, and whether the
      pools, or some pool's own tenants, cascade. */
  lemma {:induction false} SignalsMean(p: Policy, b: Books, i: nat, j: nat)
    requires ValidPolicy(p) && i < |b.pools| && j < |b.tenants|
    ensures var s := SignalsOf(p, b);
      var pool, tenant := LoadOf(b, i), Load(b.tenants[j], Use(b.tenantUse, b.tenants[j].key));
      var tenants := Loads(b.tenants, b.tenantUse);
      && (pool in s.stressed <==> Hot(p, pool)) && (pool in s.slack <==> Cold(p, pool))
      && (tenant in s.tenantStressed <==> Hot(p, tenant)) && (tenant in s.tenantSlack <==> Cold(p, tenant))
      && |s.stressed| == HotCount(p, PoolLoads(b)) && |s.tenantStressed| == HotCount(p, tenants)
      && (s.cascading <==> Cascading(p, PoolLoads(b)))
      && (s.tenantCascading <==> exists name :: CascadingIn(p, b, name))
  {
    hide Hot, Cold, Stressed, Slack, Cascades, Cascading;
    var tenants := Loads(b.tenants, b.tenantUse);
    MarkedExactly(p, PoolLoads(b), i);
    MarkedExactly(p, tenants, j);
    StressedCount(p, PoolLoads(b));
    StressedCount(p, tenants);
    CascadesMeans(p, PoolLoads(b));
    TenantsCascadeMeans(p, b);
  }

  lemma TenantsCascadeMeans(p: Policy, b: Books)
    requires ValidPolicy(p)
    ensures TenantsCascade(p, b) <==> exists name :: CascadingIn(p, b, name)
  {
    hide Cascading;
    if TenantsCascade(p, b) {
      var name :| Cascades(p, InPool(Loads(b.tenants, b.tenantUse), name));
      CascadesMeans(p, InPool(Loads(b.tenants, b.tenantUse), name));
      assert CascadingIn(p, b, name);
    }
    if name :| CascadingIn(p, b, name) {
      CascadesMeans(p, InPool(Loads(b.tenants, b.tenantUse), name));
    }
  }

  /** The tenants of one pool cascade among themselves. */
  ghost predicate CascadingIn(p: Policy, b: Books, pool: string) {
    Cascading(p, InPool(Loads(b.tenants, b.tenantUse), pool))
  }

  lemma MarkedExactly<K>(p: Policy, ls: seq<Load<K>>, i: nat)
    requires ValidPolicy(p) && i < |ls|
    ensures ls[i] in Stressed(p, ls) <==> Hot(p, ls[i])
    ensures ls[i] in Slack(p, ls) <==> Cold(p, ls[i])
  {
    StressMeans(p, ls[i]);
    if IsStressed(p, ls[i]) {
      StressedRank(p, ls, i);
    } else if a :| 0 <= a < |Stressed(p, ls)| && Stressed(p, ls)[a] == ls[i] {
      var o := StressedOrigin(p, ls, a);
    }
    if IsSlack(p, ls[i]) {
      var a := SlackIndex(p, ls, i);
    } else if a :| 0 <= a < |Slack(p, ls)| && Slack(p, ls)[a] == ls[i] {
      var o := SlackOrigin(p, ls, a);
    }
  }

  // ----- one key's part of a list of changes -----

  function Only<K(==)>(k: K): K -> bool {
    x => x == k
  }

  lemma {:induction false} DonorsOnly<K>(qs: seq<Quota<K>>, use: map<K, int>, ds: Dict<K>, k: K)
    requires DistinctKeys(ds) && forall i :: 0 <= i < |ds| ==> Backed(qs, use, ds[i])
    ensures SumDelta(DonorChanges(qs, use, ds), Only(k)) + Get(ds, k) == 0
  {
    hide Backed, Sound, DonorChange;
    if ds != [] {
      var init, last := ds[..|ds| - 1], ds[|ds| - 1];
      DonorsOnly(qs, use, init, k);
      DonorSound(qs, use, last);
      SumDeltaSnoc(DonorChanges(qs, use, init), DonorChange(qs, use, last), Only(k));
      GetSnoc(ds, k);
      if last.0 == k {
        GetAbsent(init, k);
      }
    }
  }

  /** A recipient of a positive share ends up at its cap plus the share, or at its limit if that is lower. */
  lemma RecipientRaised<K>(qs: seq<Quota<K>>, limit: K -> Option<int>, d: (K, nat))
    requires Find(qs, d.0).Some? && d.1 > 0
    ensures var c := RecipientChange(qs, limit, d);
      c.key == d.0 && c.oldCap == Find(qs, d.0).value.cap && c.newCap == Raised(c.oldCap, d.1, limit(d.0))
  {}

  lemma {:induction false} RecipientsOnly<K>(qs: seq<Quota<K>>, limit: K -> Option<int>, ds: Dict<K>, k: K)
    requires DistinctKeys(ds) && Find(qs, k).Some?
    requires forall i :: 0 <= i < |ds| ==> Find(qs, ds[i].0).Some? && ds[i].1 > 0
    ensures var cap := Find(qs, k).value.cap;
      SumDelta(RecipientChanges(qs, limit, ds), Only(k)) == Raised(cap, Get(ds, k), limit(k)) - cap
  {
    hide RecipientChange, Raised, Find;
    NotRaised(Find(qs, k).value.cap, limit(k));
    if ds != [] {
      var init, last := ds[..|ds| - 1], ds[|ds| - 1];
      RecipientsOnly(qs, limit, init, k);
      assert RecipientChanges(qs, limit, init) + [] == RecipientChanges(qs, limit, init);
      RecipientRaised(qs, limit, last);
      SumDeltaSnoc(RecipientChanges(qs, limit, init), RecipientChange(qs, limit, last), Only(k));
      GetSnoc(ds, k);
      if last.0 == k {
        GetAbsent(init, k);
      }
    }
  }

  lemma NotRaised(cap: int, room: Option<int>)
    ensures Raised(cap, 0, room) == cap
  {}

  // ----- what a draft does to one quota -----

  lemma OnlyOwnKey<K>(p: Policy, ls: seq<Load<K>>, i: nat)
    requires DistinctLoads(ls) && i < |ls|
    ensures !IsSlack(p, ls[i]) ==> forall a :: 0 <= a < |Slack(p, ls)| ==> Slack(p, ls)[a].q.key != ls[i].q.key
    ensures !IsStressed(p, ls[i]) ==>
      forall a :: 0 <= a < |Stressed(p, ls)| ==> Stressed(p, ls)[a].q.key != ls[i].q.key
  {
    hide IsStressed;
    forall a | !IsSlack(p, ls[i]) && 0 <= a < |Slack(p, ls)| ensures Slack(p, ls)[a].q.key != ls[i].q.key {
      var j := SlackOrigin(p, ls, a);
    }
    forall a | !IsStressed(p, ls[i]) && 0 <= a < |Stressed(p, ls)| ensures Stressed(p, ls)[a].q.key != ls[i].q.key {
      var j := StressedOrigin(p, ls, a);
    }
  }

  lemma DonorGets<K>(p: Policy, ls: seq<Load<K>>, i: nat)
    requires ValidPolicy(p) && DistinctLoads(ls) && WithinCaps(ls) && i < |ls|
    ensures var given := Donations(HeadroomItems(Slack(p, ls)), p.fraction);
      Get(Positive(given), ls[i].q.key) == if Cold(p, ls[i]) then Gift(p, ls[i]) else 0
  {
    hide IsStressed, IsSlack, Cold, Hot, Headroom, Gift;
    var given := Donations(HeadroomItems(Slack(p, ls)), p.fraction);
    StressMeans(p, ls[i]);
    if IsSlack(p, ls[i]) {
      var a := SlackIndex(p, ls, i);
      SlackDistinct(p, ls);
      GiftMeans(p, ls[i]);
      PositiveAt(given, a);
    } else {
      OnlyOwnKey(p, ls, i);
      PositiveAbsent(given, ls[i].q.key);
    }
  }

  lemma RecipientGets<K>(p: Policy, ls: seq<Load<K>>, i: nat, total: nat)
    requires ValidPolicy(p) && DistinctLoads(ls) && i < |ls| && Stressed(p, ls) != []
    ensures HotCount(p, ls) > 0
    ensures var shares := Even(total, ExcessItems(Stressed(p, ls)));
      Get(Positive(shares), ls[i].q.key)
        == if Hot(p, ls[i]) then EvenShare(total, HotCount(p, ls), HotCount(p, ls[..i])) else 0
  {
    hide IsStressed, IsSlack, Cold, Hot, Excess;
    var shares := Even(total, ExcessItems(Stressed(p, ls)));
    StressedCount(p, ls);
    StressMeans(p, ls[i]);
    if IsStressed(p, ls[i]) {
      StressedRank(p, ls, i);
      StressedDistinct(p, ls);
      PositiveAt(shares, HotCount(p, ls[..i]));
    } else {
      OnlyOwnKey(p, ls, i);
      PositiveAbsent(shares, ls[i].q.key);
    }
  }

  lemma SourcedWithin<K>(ls: seq<Load<K>>, qs: seq<Quota<K>>, use: map<K, int>)
    requires Sourced(ls, qs, use)
    ensures WithinCaps(ls)
    ensures forall i :: 0 <= i < |ls| ==> Find(qs, ls[i].q.key) == Some(ls[i].q)
  {}

  lemma NothingOffered<K>(p: Policy, ls: seq<Load<K>>, i: nat)
    requires ValidPolicy(p) && WithinCaps(ls) && Offered(p, ls) == 0 && i < |ls| && Stressed(p, ls) != []
    ensures Cold(p, ls[i]) ==> Gift(p, ls[i]) == 0
    ensures HotCount(p, ls) > 0 && EvenShare(0, HotCount(p, ls), HotCount(p, ls[..i])) == 0
  {
    hide IsStressed, Cold, Hot, Headroom, Gift;
    StressedCount(p, ls);
    OfferedMeans(p, ls);
    StressMeans(p, ls[i]);
    if IsSlack(p, ls[i]) {
      var a := SlackIndex(p, ls, i);
      GiftMeans(p, ls[i]);
      SumAtLeast(Donations(HeadroomItems(Slack(p, ls)), p.fraction), a);
    }
  }

  /** What a transfer over cascading quotas makes of the i-th one's cap. */
  lemma TransferMoves<K>(
    p: Policy, ls: seq<Load<K>>, qs: seq<Quota<K>>, use: map<K, int>, limit: K -> Option<int>, i: nat)
    requires ValidPolicy(p) && Sourced(ls, qs, use) && DistinctLoads(ls) && Roomy(ls, limit) && i < |ls|
    requires Stressed(p, ls) != [] && Offered(p, ls) > 0
    requires var total := Sum(Donations(HeadroomItems(Slack(p, ls)), p.fraction)); total == Offered(p, ls)
    ensures var k := ls[i].q.key;
      var given := Donations(HeadroomItems(Slack(p, ls)), p.fraction);
      SumDelta(ChangesOf(qs, use, limit, Transfer(Collect(given), Recipients(Sum(given), ExcessItems(Stressed(p, ls))),
        Sum(given))), Only(k)) == NewCap(p, ls, i, limit(k)) - ls[i].q.cap
  {
    hide Sourced, Roomy, DistinctLoads, Backed, Placed, HasKey, Cold, Hot, Gift, Raised, DonorChanges;
    hide RecipientChanges, SumDelta, Sum, Positive, Collect, Stressed, Slack, HotCount, Offered, EvenShare, Get;
    hide Recipients, Find, Even, IsStressed, IsSlack, DistinctKeys, Excess, Headroom;
    var k := ls[i].q.key;
    var given := Donations(HeadroomItems(Slack(p, ls)), p.fraction);
    var total := Sum(given);
    var donors, recipients := Collect(given), Recipients(total, ExcessItems(Stressed(p, ls)));
    SourcedWithin(ls, qs, use);
    NotRaised(ls[i].q.cap, limit(k));
    ColdIsNotHot(p, ls[i]);
    DonorsBacked(p, ls, qs, use);
    SharedEvenly(p, ls, qs, use, total);
    DonorGets(p, ls, i);
    RecipientGets(p, ls, i, total);
    RecipientsKnown(p, ls, qs, use, limit, total);
    DonorsOnly(qs, use, donors, k);
    RecipientsOnly(qs, limit, recipients, k);
    SumDeltaAppend(DonorChanges(qs, use, donors), RecipientChanges(qs, limit, recipients), Only(k));
  }

  /** A draft moves the i-th quota's cap from where it is to its new place, when the quotas cascade. */
  lemma {:induction false} DraftMoves<K>(
    p: Policy, ls: seq<Load<K>>, qs: seq<Quota<K>>, use: map<K, int>, limit: K -> Option<int>, i: nat)
    requires ValidPolicy(p) && Sourced(ls, qs, use) && DistinctLoads(ls) && Roomy(ls, limit) && i < |ls|
    ensures var k := ls[i].q.key;
      SumDelta(Draft(p, ls, qs, use, limit), Only(k))
        == if Cascading(p, ls) then NewCap(p, ls, i, limit(k)) - ls[i].q.cap else 0
  {
    hide Sourced, Roomy, DistinctLoads, Cold, Hot, Gift, Raised, Cascades, Cascading, ChangesOf, Recipients;
    hide Stressed, Slack, Sum, HotCount, Offered, EvenShare, Collect;
    var k := ls[i].q.key;
    CascadesMeans(p, ls);
    SourcedWithin(ls, qs, use);
    if Cascades(p, ls) {
      CascadingHasStressed(p, ls);
      OfferedMeans(p, ls);
      if Offered(p, ls) == 0 {
        NotRaised(ls[i].q.cap, limit(k));
        NothingOffered(p, ls, i);
        NoChanges(qs, use, limit);
      } else {
        TransferMoves(p, ls, qs, use, limit, i);
      }
    }
  }

  lemma CascadingHasStressed<K>(p: Policy, ls: seq<Load<K>>)
    requires ValidPolicy(p) && Cascades(p, ls)
    ensures Stressed(p, ls) != []
  {}

  lemma ColdIsNotHot<K>(p: Policy, l: Load<K>)
    ensures !(Cold(p, l) && Hot(p, l))
  {}

  lemma NoChanges<K>(qs: seq<Quota<K>>, use: map<K, int>, limit: K -> Option<int>)
    ensures ChangesOf(qs, use, limit, Transfer([], [], 0)) == []
  {}

  lemma RecipientsKnown<K>(
    p: Policy, ls: seq<Load<K>>, qs: seq<Quota<K>>, use: map<K, int>, limit: K -> Option<int>, total: nat)
    requires Sourced(ls, qs, use) && Roomy(ls, limit) && Stressed(p, ls) != []
    ensures var ds := Positive(Even(total, ExcessItems(Stressed(p, ls))));
      forall i :: 0 <= i < |ds| ==> Find(qs, ds[i].0).Some? && ds[i].1 > 0
  {
    var shares := Even(total, ExcessItems(Stressed(p, ls)));
    RecipientsPlaced(p, ls, qs, use, limit, total);
    forall i | 0 <= i < |Positive(shares)| ensures Find(qs, Positive(shares)[i].0).Some? && Positive(shares)[i].1 > 0 {
      var j := PositiveOrigin(shares, i);
      assert Placed(qs, use, limit, Positive(shares)[i]);
    }
  }

  // ----- the ceilings after a rebalance -----

  lemma {:induction false} SumCapsOnly<K>(qs: seq<Quota<K>>, i: nat)
    requires Distinct(qs) && i < |qs|
    ensures SumCaps(qs, Only(qs[i].key)) == qs[i].cap
  {
    if i == 0 {
      SumCapsNone(qs[1..], qs[0].key);
    } else {
      SumCapsOnly(qs[1..], i - 1);
    }
  }

  lemma {:induction false} SumCapsNone<K>(qs: seq<Quota<K>>, k: K)
    requires forall i :: 0 <= i < |qs| ==> qs[i].key != k
    ensures SumCaps(qs, Only(k)) == 0
  {
    if qs != [] {
      SumCapsNone(qs[1..], k);
    }
  }

  lemma SameKeysDistinct<K>(qs: seq<Quota<K>>, rs: seq<Quota<K>>)
    requires Distinct(qs) && OnlyCaps(qs, rs)
    ensures Distinct(rs)
  {}

  /** What a rebalance that does not raise adds to the ceilings of the selected pools, and to the selected bursts. */
  lemma PlanMoves(p: Policy, b: Books, pools: string -> bool, tenants: ((string, string)) -> bool)
    requires ValidPolicy(p) && Good(b) && ApplyAll(b, PlanOf(Evaluate(p, b))).1.None?
    ensures var d := Evaluate(p, b);
      var r := ApplyAll(b, PlanOf(d)).0;
      && r == b.(pools := r.pools, tenants := r.tenants)
      && OnlyCaps(b.pools, r.pools) && OnlyCaps(b.tenants, r.tenants)
      && SumCaps(r.pools, pools) == SumCaps(b.pools, pools) + SumDelta(d.pools, pools)
      && SumCaps(r.tenants, tenants) == SumCaps(b.tenants, tenants) + SumDelta(d.tenants, tenants)
  {
    hide Step, PoolDraft, TenantDraft, Sound, Distinct;
    var d := Evaluate(p, b);
    PoolDraftIsSound(p, b);
    GoodDistinct(b);
    TenantDraftIsSound(p, b, b.pools, "");
    Reordered(b.pools, b.poolUse, d.pools, pools);
    Reordered(b.tenants, b.tenantUse, d.tenants, tenants);
    var xs, ys := Shrinks(d.pools) + Grows(d.pools), Shrinks(d.tenants) + Grows(d.tenants);
    CeilingsLand(b, xs, pools);
    ApplyAllAppend(b, CeilingOps(xs), BurstOps(ys));
    BurstsLand(ApplyAll(b, CeilingOps(xs)).0, ys, tenants);
  }

  lemma RoomLeft(b: Books, k: string)
    ensures Room(b)(k) == Some(b.total - OtherFloors(b.pools, k))
  {}

  /** The ceiling the i-th pool has after a rebalance: unless the pools cascade, the one it had; otherwise, of a
      slack pool, its ceiling less what it gives; of a stressed one, its ceiling and its even share, or what the
      other floors leave of the total if that is less; of any other, the one it had. Nothing else of it changes. */
  lemma {:induction false} CeilingsExactly(p: Policy, b: Books, i: nat)
    requires ValidPolicy(p) && Good(b) && i < |b.pools|
    requires ApplyAll(b, PlanOf(Evaluate(p, b))).1.None?
    ensures var r := ApplyAll(b, PlanOf(Evaluate(p, b))).0;
      var q, ls := b.pools[i], PoolLoads(b);
      var room := Some(b.total - OtherFloors(b.pools, q.key));
      |r.pools| == |b.pools| && r.pools[i] == q.(cap := if Cascading(p, ls) then NewCap(p, ls, i, room) else q.cap)
  {
    hide ApplyAll, PlanOf, Draft, Cascading, NewCap, Good, Sourced, Roomy, DistinctLoads, Distinct, TenantDraft;
    hide SumDelta, SumCaps;
    var k := b.pools[i].key;
    var r := ApplyAll(b, PlanOf(Evaluate(p, b))).0;
    PlanMoves(p, b, Only(k), t => true);
    GoodDistinct(b);
    SameKeysDistinct(b.pools, r.pools);
    SumCapsOnly(b.pools, i);
    SumCapsOnly(r.pools, i);
    GoodLoads(b);
    PoolsRoomy(b);
    RoomLeft(b, k);
    DraftMoves(p, PoolLoads(b), b.pools, b.poolUse, Room(b), i);
  }

  // ----- when the ceilings keep their sum -----

  ghost predicate FitsWhole<K>(qs: seq<Quota<K>>, limit: K -> Option<int>, d: (K, nat)) {
    Find(qs, d.0).Some? && limit(d.0).Some? ==> Find(qs, d.0).value.cap + d.1 <= limit(d.0).value
  }

  lemma RaisedInFullIff<K>(qs: seq<Quota<K>>, limit: K -> Option<int>, d: (K, nat))
    requires Find(qs, d.0).Some? && d.1 > 0
    ensures var c := RecipientChange(qs, limit, d);
      c.newCap - c.oldCap <= d.1 && (c.newCap - c.oldCap == d.1 <==> FitsWhole(qs, limit, d))
  {
    hide Find;
  }

  lemma ReceivedOneMore<K>(qs: seq<Quota<K>>, limit: K -> Option<int>, init: Dict<K>, last: (K, nat))
    ensures var c := RecipientChange(qs, limit, last);
      SumDelta(RecipientChanges(qs, limit, init + [last]), k => true)
        == SumDelta(RecipientChanges(qs, limit, init), k => true) + c.newCap - c.oldCap
  {
    hide RecipientChange;
    assert (init + [last])[..|init|] == init;
    assert RecipientChanges(qs, limit, init) + [] == RecipientChanges(qs, limit, init);
    SumDeltaSnoc(RecipientChanges(qs, limit, init), RecipientChange(qs, limit, last), k => true);
  }

  ghost predicate AllFitWhole<K>(qs: seq<Quota<K>>, limit: K -> Option<int>, ds: Dict<K>) {
    forall i :: 0 <= i < |ds| ==> FitsWhole(qs, limit, ds[i])
  }

  lemma {:induction false} ReceivedInFullIff<K>(qs: seq<Quota<K>>, limit: K -> Option<int>, ds: Dict<K>)
    requires forall i :: 0 <= i < |ds| ==> Find(qs, ds[i].0).Some? && ds[i].1 > 0
    ensures SumDelta(RecipientChanges(qs, limit, ds), k => true) <= Sum(ds)
    ensures SumDelta(RecipientChanges(qs, limit, ds), k => true) == Sum(ds) <==> AllFitWhole(qs, limit, ds)
  {
    if ds != [] {
      hide RecipientChange, RecipientChanges, SumDelta, Sum, Find, FitsWhole;
      var init, last := ds[..|ds| - 1], ds[|ds| - 1];
      assert ds == init + [last];
      ReceivedInFullIff(qs, limit, init);
      SumSnoc(ds);
      RaisedInFullIff(qs, limit, last);
      ReceivedOneMore(qs, limit, init, last);
      assert forall i :: 0 <= i < |init| ==> ds[i] == init[i];
    }
  }

  /** The i-th quota, if it is stressed, has room for its whole share. */
  ghost predicate TakesItsShare<K>(p: Policy, ls: seq<Load<K>>, i: nat, limit: K -> Option<int>)
    requires i < |ls|
  {
    Hot(p, ls[i]) && ShareOf(p, ls, i) > 0 && limit(ls[i].q.key).Some? ==>
      ls[i].q.cap + ShareOf(p, ls, i) <= limit(ls[i].q.key).value
  }

  /** The share recorded for a recipient is some stressed quota's. */
  lemma ShareOrigin<K>(p: Policy, ls: seq<Load<K>>, total: nat, j: nat) returns (i: nat)
    requires ValidPolicy(p) && DistinctLoads(ls) && Stressed(p, ls) != [] && total == Offered(p, ls)
    requires j < |Positive(Even(total, ExcessItems(Stressed(p, ls))))|
    ensures i < |ls| && Hot(p, ls[i])
    ensures Positive(Even(total, ExcessItems(Stressed(p, ls))))[j] == (ls[i].q.key, ShareOf(p, ls, i))
    ensures ShareOf(p, ls, i) > 0
  {
    hide IsStressed, Hot, Cold, Offered, Excess;
    var o := PositiveOrigin(Even(total, ExcessItems(Stressed(p, ls))), j);
    i := StressedOrigin(p, ls, o);
    StressMeans(p, ls[i]);
    StressedRank(p, ls, i);
    StressedCount(p, ls);
    StressedDistinct(p, ls);
    assert Stressed(p, ls)[HotCount(p, ls[..i])].q.key == Stressed(p, ls)[o].q.key;
  }

  lemma ShareRecorded<K>(p: Policy, ls: seq<Load<K>>, total: nat, i: nat) returns (j: nat)
    requires ValidPolicy(p) && Stressed(p, ls) != [] && total == Offered(p, ls)
    requires i < |ls| && Hot(p, ls[i]) && ShareOf(p, ls, i) > 0
    ensures j < |Positive(Even(total, ExcessItems(Stressed(p, ls))))|
    ensures Positive(Even(total, ExcessItems(Stressed(p, ls))))[j] == (ls[i].q.key, ShareOf(p, ls, i))
  {
    hide IsStressed, Hot, Cold, Offered, Excess;
    StressMeans(p, ls[i]);
    StressedRank(p, ls, i);
    StressedCount(p, ls);
    j := PositiveIndex(Even(total, ExcessItems(Stressed(p, ls))), HotCount(p, ls[..i]));
  }

  /** A transfer loses nothing exactly when every stressed quota has room for its share. */
  lemma TransferKeepsIff<K>(
    p: Policy, ls: seq<Load<K>>, qs: seq<Quota<K>>, use: map<K, int>, limit: K -> Option<int>)
    requires ValidPolicy(p) && Sourced(ls, qs, use) && DistinctLoads(ls) && Roomy(ls, limit)
    requires Stressed(p, ls) != []
    requires var total := Sum(Donations(HeadroomItems(Slack(p, ls)), p.fraction)); total == Offered(p, ls)
    ensures var given := Donations(HeadroomItems(Slack(p, ls)), p.fraction);
      SumDelta(ChangesOf(qs, use, limit, Transfer(Collect(given), Recipients(Sum(given), ExcessItems(Stressed(p, ls))),
        Sum(given))), k => true) == 0
      <==> forall i :: 0 <= i < |ls| ==> TakesItsShare(p, ls, i, limit)
  {
    hide Sourced, Roomy, DistinctLoads, Backed, Placed, HasKey, Cold, Hot, Gift, DonorChanges, ShareOf, Headroom;
    hide RecipientChanges, SumDelta, Sum, Positive, Collect, Stressed, Slack, Offered, Recipients, Find, Even;
    hide IsStressed, IsSlack, DistinctKeys, Excess;
    var given := Donations(HeadroomItems(Slack(p, ls)), p.fraction);
    var total := Sum(given);
    var donors, recipients := Collect(given), Recipients(total, ExcessItems(Stressed(p, ls)));
    SourcedWithin(ls, qs, use);
    DonorsBacked(p, ls, qs, use);
    SharedEvenly(p, ls, qs, use, total);
    RecipientsKnown(p, ls, qs, use, limit, total);
    DonorsLand(qs, use, donors, k => true);
    ReceivedInFullIff(qs, limit, recipients);
    SumDeltaAppend(DonorChanges(qs, use, donors), RecipientChanges(qs, limit, recipients), k => true);
    if AllFitWhole(qs, limit, recipients) {
      forall i | 0 <= i < |ls| ensures TakesItsShare(p, ls, i, limit) {
        if Hot(p, ls[i]) && ShareOf(p, ls, i) > 0 {
          var j := ShareRecorded(p, ls, total, i);
          assert FitsWhole(qs, limit, recipients[j]);
        }
      }
    }
    if forall i :: 0 <= i < |ls| ==> TakesItsShare(p, ls, i, limit) {
      forall j | 0 <= j < |recipients| ensures FitsWhole(qs, limit, recipients[j]) {
        var i := ShareOrigin(p, ls, total, j);
        assert TakesItsShare(p, ls, i, limit);
      }
    }
  }

  lemma DraftKeepsIff(p: Policy, b: Books)
    requires ValidPolicy(p) && Good(b)
    ensures SumDelta(PoolDraft(p, b), k => true) == 0
      <==> (Cascading(p, PoolLoads(b)) ==>
             forall i :: 0 <= i < |b.pools| ==> TakesItsShare(p, PoolLoads(b), i, Room(b)))
  {
    hide Good, Sourced, Roomy, DistinctLoads, Cold, Hot, Cascades, Cascading, ChangesOf, Recipients, TakesItsShare;
    hide Stressed, Slack, Sum, HotCount, Offered, Collect, Room;
    var ls := PoolLoads(b);
    GoodLoads(b);
    PoolsRoomy(b);
    CascadesMeans(p, ls);
    SourcedWithin(ls, b.pools, b.poolUse);
    if Cascades(p, ls) {
      CascadingHasStressed(p, ls);
      OfferedMeans(p, ls);
      if Offered(p, ls) == 0 {
        NoChanges(b.pools, b.poolUse, Room(b));
        forall i | 0 <= i < |ls| ensures TakesItsShare(p, ls, i, Room(b)) {
          NothingOffered(p, ls, i);
          NoShareToTake(p, ls, i, Room(b));
        }
      } else {
        TransferKeepsIff(p, ls, b.pools, b.poolUse, Room(b));
      }
    }
  }

  lemma NoShareToTake<K>(p: Policy, ls: seq<Load<K>>, i: nat, limit: K -> Option<int>)
    requires i < |ls| && ShareOf(p, ls, i) == 0
    ensures TakesItsShare(p, ls, i, limit)
  {}

  /** A rebalance keeps the sum of the ceilings exactly unless the pools cascade and the other floors leave some
      stressed pool no room for its whole share. */
  lemma {:induction false} CeilingsKeepTheirSumIff(p: Policy, b: Books)
    requires ValidPolicy(p) && Good(b) && ApplyAll(b, PlanOf(Evaluate(p, b))).1.None?
    ensures var r := ApplyAll(b, PlanOf(Evaluate(p, b))).0;
      var ls := PoolLoads(b);
      SumCaps(r.pools, k => true) == SumCaps(b.pools, k => true)
      <==> (Cascading(p, ls) ==> forall i :: 0 <= i < |b.pools| && Hot(p, ls[i]) && ShareOf(p, ls, i) > 0 ==>
              b.pools[i].cap + ShareOf(p, ls, i) + OtherFloors(b.pools, b.pools[i].key) <= b.total)
  {
    hide ApplyAll, PlanOf, PoolDraft, Cascading, Good, TenantDraft, SumDelta, SumCaps, Hot, ShareOf, OtherFloors;
    PlanMoves(p, b, k => true, t => true);
    DraftKeepsIff(p, b);
    var ls := PoolLoads(b);
    forall i | 0 <= i < |b.pools|
      ensures TakesItsShare(p, ls, i, Room(b)) <==> (Hot(p, ls[i]) && ShareOf(p, ls, i) > 0 ==>
          b.pools[i].cap + ShareOf(p, ls, i) + OtherFloors(b.pools, b.pools[i].key) <= b.total)
    {
      RoomLeft(b, b.pools[i].key);
    }
  }

  // ----- the bursts after a rebalance -----

  lemma {:induction false} InPoolAppend(xs: seq<Load<(string, string)>>, ys: seq<Load<(string, string)>>, pool: string)
    ensures InPool(xs + ys, pool) == InPool(xs, pool) + InPool(ys, pool)
  {
    if ys == [] {
      assert xs + ys == xs;
    } else {
      InPoolAppend(xs, ys[..|ys| - 1], pool);
      assert (xs + ys)[..|xs + ys| - 1] == xs + ys[..|ys| - 1];
    }
  }

  lemma {:induction false} MarksAppend<K>(p: Policy, xs: seq<Load<K>>, ys: seq<Load<K>>)
    ensures Stressed(p, xs + ys) == Stressed(p, xs) + Stressed(p, ys)
    ensures Slack(p, xs + ys) == Slack(p, xs) + Slack(p, ys)
  {
    hide IsStressed, IsSlack;
    if ys == [] {
      assert xs + ys == xs;
    } else {
      MarksAppend(p, xs, ys[..|ys| - 1]);
      assert (xs + ys)[..|xs + ys| - 1] == xs + ys[..|ys| - 1];
    }
  }

  lemma MarksOfOne<K>(p: Policy, l: Load<K>)
    ensures Stressed(p, [l]) == if IsStressed(p, l) then [l] else []
    ensures Slack(p, [l]) == if IsSlack(p, l) then [l] else []
  {
    hide IsStressed, IsSlack;
    assert [l][..0] == [];
  }

  lemma InPoolOfOne(l: Load<(string, string)>, pool: string)
    ensures InPool([l], pool) == if l.q.key.0 == pool then [l] else []
  {
    assert [l][..0] == [];
  }

  lemma MarksOfNone<K>(p: Policy)
    ensures Stressed<K>(p, []) == [] && Slack<K>(p, []) == []
  {}

  /** Marking a pool's own tenants and picking a pool's tenants from the marked ones come to the same. */
  lemma {:induction false} MarksCommute(p: Policy, ls: seq<Load<(string, string)>>, pool: string)
    ensures InPool(Stressed(p, ls), pool) == Stressed(p, InPool(ls, pool))
    ensures InPool(Slack(p, ls), pool) == Slack(p, InPool(ls, pool))
  {
    if ls != [] {
      var init, last := ls[..|ls| - 1], ls[|ls| - 1];
      assert ls == init + [last];
      MarksCommute(p, init, pool);
      MarksCommuteAtEnd(p, init, last, pool);
    }
  }

  lemma MarksCommuteAtEnd(p: Policy, init: seq<Load<(string, string)>>, last: Load<(string, string)>, pool: string)
    requires InPool(Stressed(p, init), pool) == Stressed(p, InPool(init, pool))
    requires InPool(Slack(p, init), pool) == Slack(p, InPool(init, pool))
    ensures InPool(Stressed(p, init + [last]), pool) == Stressed(p, InPool(init + [last], pool))
    ensures InPool(Slack(p, init + [last]), pool) == Slack(p, InPool(init + [last], pool))
  {
    hide Stressed, Slack, InPool, IsStressed, IsSlack;
    MarksAppend(p, init, [last]);
    InPoolAppend(init, [last], pool);
    MarksOfOne(p, last);
    InPoolOfOne(last, pool);
    InPoolAppend(Stressed(p, init), Stressed(p, [last]), pool);
    InPoolAppend(Slack(p, init), Slack(p, [last]), pool);
    MarksAppend(p, InPool(init, pool), InPool([last], pool));
    MarksOfNone<(string, string)>(p);
    InPoolOfNone(pool);
  }

  lemma InPoolOfNone(pool: string)
    ensures InPool([], pool) == []
  {}

  lemma {:induction false} MarksOfMarks<K>(p: Policy, ls: seq<Load<K>>)
    ensures Stressed(p, Stressed(p, ls)) == Stressed(p, ls) && Slack(p, Stressed(p, ls)) == []
    ensures Slack(p, Slack(p, ls)) == Slack(p, ls) && Stressed(p, Slack(p, ls)) == []
  {
    if ls != [] {
      var init, last := ls[..|ls| - 1], ls[|ls| - 1];
      assert ls == init + [last];
      MarksOfMarks(p, init);
      MarksOfMarksAtEnd(p, init, last);
    }
  }

  lemma MarksOfMarksAtEnd<K>(p: Policy, init: seq<Load<K>>, last: Load<K>)
    requires Stressed(p, Stressed(p, init)) == Stressed(p, init) && Slack(p, Stressed(p, init)) == []
    requires Slack(p, Slack(p, init)) == Slack(p, init) && Stressed(p, Slack(p, init)) == []
    ensures var ls := init + [last];
      && Stressed(p, Stressed(p, ls)) == Stressed(p, ls) && Slack(p, Stressed(p, ls)) == []
      && Slack(p, Slack(p, ls)) == Slack(p, ls) && Stressed(p, Slack(p, ls)) == []
  {
    SlackIsNotStressed(p, last);
    hide Stressed, Slack, IsStressed, IsSlack;
    MarksAppend(p, init, [last]);
    MarksOfOne(p, last);
    MarksOfNone<K>(p);
    MarksAppend(p, Stressed(p, init), Stressed(p, [last]));
    MarksAppend(p, Slack(p, init), Slack(p, [last]));
  }

  lemma SlackIsNotStressed<K>(p: Policy, l: Load<K>)
    ensures !(IsSlack(p, l) && IsStressed(p, l))
  {}

  lemma MarkedAlike(p: Policy, b: Books, pool: string)
    ensures var mates, marked := InPool(Loads(b.tenants, b.tenantUse), pool), InPool(MarkedTenants(p, b), pool);
      Stressed(p, marked) == Stressed(p, mates) && Slack(p, marked) == Slack(p, mates)
  {
    hide IsStressed, IsSlack, Stressed, Slack, InPool;
    var all := Loads(b.tenants, b.tenantUse);
    var mates := InPool(all, pool);
    InPoolAppend(Stressed(p, all), Slack(p, all), pool);
    MarksCommute(p, all, pool);
    MarksAppend(p, Stressed(p, mates), Slack(p, mates));
    MarksOfMarks(p, mates);
  }

  lemma DraftsAlike<K>(p: Policy, xs: seq<Load<K>>, ys: seq<Load<K>>, qs: seq<Quota<K>>, use: map<K, int>,
                       limit: K -> Option<int>)
    requires ValidPolicy(p) && Stressed(p, xs) == Stressed(p, ys) && Slack(p, xs) == Slack(p, ys)
    ensures Draft(p, xs, qs, use, limit) == Draft(p, ys, qs, use, limit)
  {
    hide Stressed, Slack, Share, ChangesOf;
  }

  lemma MatesSourced(b: Books, pool: string)
    requires Good(b)
    ensures var mates := InPool(Loads(b.tenants, b.tenantUse), pool);
      Sourced(mates, b.tenants, b.tenantUse) && DistinctLoads(mates)
  {
    var all := Loads(b.tenants, b.tenantUse);
    LoadsSourced(b.tenants, b.tenantUse);
    InPoolDistinct(all, pool);
    forall i | 0 <= i < |InPool(all, pool)| ensures exists j :: 0 <= j < |all| && all[j] == InPool(all, pool)[i] {
      var j := InPoolOrigin(all, pool, i);
    }
  }

  lemma {:induction false} InPoolIndex(ls: seq<Load<(string, string)>>, j: nat) returns (i: nat)
    requires j < |ls|
    ensures i < |InPool(ls, ls[j].q.key.0)| && InPool(ls, ls[j].q.key.0)[i] == ls[j]
  {
    var n := |ls| - 1;
    if j < n {
      i := InPoolIndex(ls[..n], j);
    } else {
      i := |InPool(ls[..n], ls[j].q.key.0)|;
    }
  }

  lemma {:induction false} OwnPoolOnly(p: Policy, b: Books, pools: seq<Pool>, k: (string, string))
    requires ValidPolicy(p) && Good(b) && Distinct(pools)
    ensures SumDelta(TenantDraft(p, b, pools), Only(k))
      == if PoolNamed(pools, k.0) then SumDelta(TenantDraftIn(p, b, k.0), Only(k)) else 0
  {
    hide Good, Distinct, PoolNamed, Sound, TenantDraftIn;
    if pools == [] {
      assert !PoolNamed(pools, k.0) by { NoPoolNamed(k.0); }
    } else {
      var init, last := pools[..|pools| - 1], pools[|pools| - 1];
      assert pools == init + [last];
      PoolNamedSnoc(init, last, k.0);
      OwnPoolOnly(p, b, init, k);
      SumDeltaAppend(TenantDraft(p, b, init), TenantDraftIn(p, b, last.key), Only(k));
      if last.key != k.0 {
        TenantDraftInIsSound(p, b, last.key, "");
        SumDeltaNone(TenantDraftIn(p, b, last.key), Only(k));
      }
    }
  }

  lemma NoPoolNamed(name: string)
    ensures !PoolNamed([], name)
  {}

  lemma TenantPoolNamed(b: Books, j: nat)
    requires Good(b) && j < |b.tenants|
    ensures PoolNamed(b.pools, b.tenants[j].key.0)
  {
    assert b.tenants[j] in b.tenants;
    var q := Find(b.pools, b.tenants[j].key.0).value;
    var i :| 0 <= i < |b.pools| && b.pools[i] == q;
  }

  lemma TenantMoves(p: Policy, b: Books, mates: seq<Load<(string, string)>>, i: nat, pool: string)
    requires ValidPolicy(p) && Good(b) && mates == InPool(Loads(b.tenants, b.tenantUse), pool) && i < |mates|
    ensures SumDelta(TenantDraftIn(p, b, pool), Only(mates[i].q.key))
      == if Cascading(p, mates) then NewCap(p, mates, i, None) - mates[i].q.cap else 0
  {
    hide Good, Sourced, DistinctLoads, InPool, Draft, NewCap, Cascading, Stressed, Slack, MarkedTenants;
    MarkedAlike(p, b, pool);
    MatesSourced(b, pool);
    DraftsAlike(p, InPool(MarkedTenants(p, b), pool), mates, b.tenants, b.tenantUse, NoLimit());
    DraftMoves(p, mates, b.tenants, b.tenantUse, NoLimit(), i);
  }

  /** The burst the j-th tenant has after a rebalance: what its own pool's tenants, in their order, make of it, by
      the same rule and without a limit, wherever they cascade; the tenants of other pools have no part in it. */
  lemma {:induction false} BurstsExactly(p: Policy, b: Books, j: nat) returns (i: nat)
    requires ValidPolicy(p) && Good(b) && j < |b.tenants|
    requires ApplyAll(b, PlanOf(Evaluate(p, b))).1.None?
    ensures var r := ApplyAll(b, PlanOf(Evaluate(p, b))).0;
      var q := b.tenants[j];
      var mates := InPool(Loads(b.tenants, b.tenantUse), q.key.0);
      && |r.tenants| == |b.tenants| && i < |mates| && mates[i] == Load(q, Use(b.tenantUse, q.key))
      && r.tenants[j] == q.(cap := if Cascading(p, mates) then NewCap(p, mates, i, None) else q.cap)
  {
    hide ApplyAll, PlanOf, Cascading, NewCap, Good, Distinct, TenantDraft, PoolDraft, SumDelta, SumCaps, InPool;
    hide TenantDraftIn, PoolNamed, Cascades;
    var k := b.tenants[j].key;
    var r := ApplyAll(b, PlanOf(Evaluate(p, b))).0;
    var mates := InPool(Loads(b.tenants, b.tenantUse), k.0);
    i := InPoolIndex(Loads(b.tenants, b.tenantUse), j);
    PlanMoves(p, b, s => true, Only(k));
    GoodDistinct(b);
    SameKeysDistinct(b.tenants, r.tenants);
    SumCapsOnly(b.tenants, j);
    SumCapsOnly(r.tenants, j);
    CascadesMeans(p, mates);
    TenantPoolNamed(b, j);
    OwnPoolOnly(p, b, b.pools, k);
    TenantMoves(p, b, mates, i, k.0);
    NoDelta(Only(k));
  }

  lemma NoDelta<K>(sel: K -> bool)
    ensures SumDelta([], sel) == 0
  {}
}
