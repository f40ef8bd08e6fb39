/** Quotas: a keyed floor and cap. A budget pool is a quota keyed by its name (reserved, ceiling);
    a tenant budget is a quota keyed by (pool, tenant) (reserve, burst). */
module Quotas {
  import opened Common

  datatype Quota<K> = Quota(key: K, floor: int, cap: int)

  type Pool = Quota<string>

  type TenantBudget = Quota<(string, string)>

  predicate ValidQuota<K>(q: Quota<K>) {
    0 <= q.floor <= q.cap
  }

  ghost predicate Distinct<K>(qs: seq<Quota<K>>) {
    forall i, j :: 0 <= i < j < |qs| ==> qs[i].key != qs[j].key
  }

  /** The first quota with this key. */
  function Find<K(==)>(qs: seq<Quota<K>>, k: K): (r: Option<Quota<K>>)
    ensures r.Some? ==> r.value in qs && r.value.key == k
    ensures r.None? <==> forall q :: q in qs ==> q.key != k
  {
    if qs == [] then None
    else if qs[0].key == k then Some(qs[0])
    else Find(qs[1..], k)
  }

  /** Every quota with key `k` gets cap `cap`. */
  function SetCap<K(==)>(qs: seq<Quota<K>>, k: K, cap: int): (r: seq<Quota<K>>) {
    if qs == [] then []
    else [if qs[0].key == k then qs[0].(cap := cap) else qs[0]] + SetCap(qs[1..], k, cap)
  }

  /** The sum of the floors of all quotas but those with key `k`. */
  function OtherFloors<K(==)>(qs: seq<Quota<K>>, k: K): int {
    if qs == [] then 0
    else (if qs[0].key == k then 0 else qs[0].floor) + OtherFloors(qs[1..], k)
  }

  function SumFloors<K>(qs: seq<Quota<K>>): int {
    if qs == [] then 0 else qs[0].floor + SumFloors(qs[1..])
  }

  /** The sum of the caps of the quotas whose key is selected. */
  function SumCaps<K>(qs: seq<Quota<K>>, sel: K -> bool): int {
    if qs == [] then 0 else (if sel(qs[0].key) then qs[0].cap else 0) + SumCaps(qs[1..], sel)
  }

  lemma {:induction false} FindIn<K>(qs: seq<Quota<K>>, q: Quota<K>)
    requires Distinct(qs) && q in qs
    ensures Find(qs, q.key) == Some(q)
  {
    if qs[0] != q {
      assert qs == [qs[0]] + qs[1..];
      assert q in qs[1..];
      FindIn(qs[1..], q);
    }
  }

  lemma {:induction false} SetCapAt<K>(qs: seq<Quota<K>>, k: K, cap: int)
    ensures |SetCap(qs, k, cap)| == |qs|
    ensures forall i :: 0 <= i < |qs| ==>
      SetCap(qs, k, cap)[i] == if qs[i].key == k then qs[i].(cap := cap) else qs[i]
    ensures Distinct(qs) ==> Distinct(SetCap(qs, k, cap))
  {
    if qs != [] {
      SetCapAt(qs[1..], k, cap);
    }
  }

  /** Where a quota of the updated list comes from. */
  lemma SetCapOrigin<K>(qs: seq<Quota<K>>, k: K, cap: int, q: Quota<K>) returns (q0: Quota<K>)
    requires Distinct(qs) && q in SetCap(qs, k, cap)
    ensures q0 in qs && Find(qs, q.key) == Some(q0)
    ensures q == if q0.key == k then q0.(cap := cap) else q0
  {
    SetCapAt(qs, k, cap);
    var i :| 0 <= i < |qs| && SetCap(qs, k, cap)[i] == q;
    q0 := qs[i];
    FindIn(qs, q0);
  }

  lemma {:induction false} SetCapFind<K>(qs: seq<Quota<K>>, k: K, cap: int, other: K)
    ensures
      var before := Find(qs, other);
      Find(SetCap(qs, k, cap), other)
        == if before.Some? && other == k then Some(before.value.(cap := cap)) else before
    ensures OtherFloors(SetCap(qs, k, cap), other) == OtherFloors(qs, other)
    ensures SumFloors(SetCap(qs, k, cap)) == SumFloors(qs)
  {
    if qs != [] {
      SetCapFind(qs[1..], k, cap, other);
      assert SetCap(qs, k, cap)[1..] == SetCap(qs[1..], k, cap);
    }
  }

  lemma {:induction false} SetCapSum<K>(qs: seq<Quota<K>>, k: K, cap: int, sel: K -> bool)
    requires Distinct(qs)
    ensures
      var before := Find(qs, k);
      SumCaps(SetCap(qs, k, cap), sel)
        == SumCaps(qs, sel) + if before.Some? && sel(k) then cap - before.value.cap else 0
  {
    if qs != [] {
      assert SetCap(qs, k, cap)[1..] == SetCap(qs[1..], k, cap);
      if qs[0].key == k {
        SetCapAbsent(qs[1..], k, cap);
      } else {
        SetCapSum(qs[1..], k, cap, sel);
      }
    }
  }

  lemma {:induction false} SetCapAbsent<K>(qs: seq<Quota<K>>, k: K, cap: int)
    requires forall i :: 0 <= i < |qs| ==> qs[i].key != k
    ensures SetCap(qs, k, cap) == qs
  {
    if qs != [] {
      SetCapAbsent(qs[1..], k, cap);
    }
  }

  lemma {:induction false} FloorsSplit<K>(qs: seq<Quota<K>>, k: K)
    requires Distinct(qs)
    ensures SumFloors(qs) == OtherFloors(qs, k) + if Find(qs, k).Some? then Find(qs, k).value.floor else 0
  {
    if qs != [] {
      if qs[0].key == k {
        OtherFloorsAbsent(qs[1..], k);
      } else {
        FloorsSplit(qs[1..], k);
      }
    }
  }

  lemma {:induction false} OtherFloorsAbsent<K>(qs: seq<Quota<K>>, k: K)
    requires forall i :: 0 <= i < |qs| ==> qs[i].key != k
    ensures OtherFloors(qs, k) == SumFloors(qs)
  {
    if qs != [] {
      OtherFloorsAbsent(qs[1..], k);
    }
  }
}
