/** Sharing a fraction of slack headroom out among stressed items in whole units. */
module Allocation {
  import opened Common

  /** A dict from keys to amounts, in insertion order. */
  type Dict<K> = seq<(K, nat)>

  datatype Transfer<K> = Transfer(donors: Dict<K>, recipients: Dict<K>, total: nat)

  function Put<K(==)>(d: Dict<K>, k: K, v: nat): Dict<K> {
    if d == [] then [(k, v)]
    else if d[0].0 == k then [(k, v)] + d[1..]
    else [d[0]] + Put(d[1..], k, v)
  }

  function Get<K(==)>(d: Dict<K>, k: K): nat {
    if d == [] then 0 else if d[0].0 == k then d[0].1 else Get(d[1..], k)
  }

  function Sum<K>(d: Dict<K>): nat {
    if d == [] then 0 else d[0].1 + Sum(d[1..])
  }

  ghost predicate DistinctKeys<K>(items: seq<(K, nat)>) {
    forall i, j :: 0 <= i < j < |items| ==> items[i].0 != items[j].0
  }

  /** No two items that carry a positive amount share a key. */
  ghost predicate NoCollision<K>(items: seq<(K, nat)>) {
    forall i, j :: 0 <= i < j < |items| && items[i].1 > 0 && items[j].1 > 0 ==> items[i].0 != items[j].0
  }

  /** The items with a positive amount, recorded in a dict in order: a repeated key overwrites. */
  function Collect<K(==)>(items: seq<(K, nat)>): Dict<K> {
    if items == [] then []
    else
      var before := Collect(items[..|items| - 1]);
      var last := items[|items| - 1];
      if last.1 > 0 then Put(before, last.0, last.1) else before
  }

  function Positive<K>(items: seq<(K, nat)>): seq<(K, nat)> {
    if items == [] then []
    else Positive(items[..|items| - 1]) + if items[|items| - 1].1 > 0 then [items[|items| - 1]] else []
  }

  // ----- sums and collisions -----

  lemma {:induction false} SumAppend<K>(a: Dict<K>, b: Dict<K>)
    ensures Sum(a + b) == Sum(a) + Sum(b)
  {
    if a == [] {
      assert a + b == b;
    } else {
      assert (a + b)[1..] == a[1..] + b;
      SumAppend(a[1..], b);
    }
  }

  lemma SumSnoc<K>(a: Dict<K>)
    requires a != []
    ensures Sum(a) == Sum(a[..|a| - 1]) + a[|a| - 1].1
  {
    assert a == a[..|a| - 1] + [a[|a| - 1]];
    SumAppend(a[..|a| - 1], [a[|a| - 1]]);
  }

  lemma {:induction false} PutSum<K>(d: Dict<K>, k: K, v: nat)
    ensures Sum(Put(d, k, v)) + Get(d, k) == Sum(d) + v
  {
    if d != [] && d[0].0 != k {
      PutSum(d[1..], k, v);
      assert Put(d, k, v)[1..] == Put(d[1..], k, v);
    } else if d != [] {
      assert Put(d, k, v)[1..] == d[1..];
    }
  }

  lemma {:induction false} PutGet<K>(d: Dict<K>, k: K, v: nat, other: K)
    ensures Get(Put(d, k, v), other) == if other == k then v else Get(d, other)
  {
    if d != [] && d[0].0 != k {
      PutGet(d[1..], k, v, other);
      assert Put(d, k, v)[1..] == Put(d[1..], k, v);
    } else if d != [] {
      assert Put(d, k, v)[1..] == d[1..];
    }
  }

  /** A key is recorded with a positive amount exactly when some positive item carried it. */
  lemma {:induction false} CollectGet<K>(items: seq<(K, nat)>, k: K)
    ensures Get(Collect(items), k) > 0 <==> exists i :: 0 <= i < |items| && items[i].0 == k && items[i].1 > 0
  {
    if items != [] {
      var init, last := items[..|items| - 1], items[|items| - 1];
      CollectGet(init, k);
      if last.1 > 0 {
        PutGet(Collect(init), last.0, last.1, k);
      }
      if Get(Collect(init), k) > 0 {
        var i :| 0 <= i < |init| && init[i].0 == k && init[i].1 > 0;
        assert items[i] == init[i];
      }
      if i :| 0 <= i < |items| && items[i].0 == k && items[i].1 > 0 {
        assert i < |init| ==> init[i] == items[i];
      }
    }
  }

  /** Recording loses units exactly when two positive items collide on a key. */
  lemma {:induction false} CollectSum<K>(items: seq<(K, nat)>)
    ensures Sum(Collect(items)) <= Sum(items)
    ensures Sum(Collect(items)) == Sum(items) <==> NoCollision(items)
  {
    if items != [] {
      var init, last := items[..|items| - 1], items[|items| - 1];
      CollectSum(init);
      SumSnoc(items);
      if last.1 > 0 {
        PutSum(Collect(init), last.0, last.1);
        CollectGet(init, last.0);
        if Get(Collect(init), last.0) > 0 {
          var i :| 0 <= i < |init| && init[i].0 == last.0 && init[i].1 > 0;
          assert items[i].0 == items[|items| - 1].0 && items[i].1 > 0;
          assert !NoCollision(items);
        } else {
          CollisionSnoc(items);
        }
      } else {
        CollisionSnoc(items);
      }
    }
  }

  lemma CollisionSnoc<K>(items: seq<(K, nat)>)
    requires items != []
    requires var init, last := items[..|items| - 1], items[|items| - 1];
      last.1 == 0 || forall i :: 0 <= i < |init| && init[i].1 > 0 ==> init[i].0 != last.0
    ensures NoCollision(items) <==> NoCollision(items[..|items| - 1])
  {
    var init := items[..|items| - 1];
    assert forall i :: 0 <= i < |init| ==> items[i] == init[i];
  }

  lemma {:induction false} PutAbsent<K>(d: Dict<K>, k: K, v: nat)
    requires forall i :: 0 <= i < |d| ==> d[i].0 != k
    ensures Put(d, k, v) == d + [(k, v)]
  {
    if d != [] {
      PutAbsent(d[1..], k, v);
    }
  }

  /** Where a kept item comes from. */
  lemma {:induction false} PositiveOrigin<K>(items: seq<(K, nat)>, i: nat) returns (j: nat)
    requires i < |Positive(items)|
    ensures j < |items| && items[j] == Positive(items)[i] && items[j].1 > 0
  {
    var init := items[..|items| - 1];
    if i < |Positive(init)| {
      j := PositiveOrigin(init, i);
    } else {
      j := |items| - 1;
    }
  }

  /** With distinct keys, recording just filters. */
  lemma {:induction false} CollectDistinct<K>(items: seq<(K, nat)>)
    requires DistinctKeys(items)
    ensures Collect(items) == Positive(items)
    ensures DistinctKeys(Positive(items))
    ensures Sum(Positive(items)) == Sum(items)
  {
    if items != [] {
      var init, last := items[..|items| - 1], items[|items| - 1];
      CollectDistinct(init);
      SumSnoc(items);
      forall i | 0 <= i < |Positive(init)| ensures Positive(init)[i].0 != last.0 {
        var j := PositiveOrigin(init, i);
        assert items[j].0 != items[|items| - 1].0;
      }
      if last.1 > 0 {
        PutAbsent(Collect(init), last.0, last.1);
        SumAppend(Positive(init), [last]);
      }
    }
  }

  // ----- donations -----

  /** The whole units a donor gives of its headroom. */
  function Donation(headroom: nat, fraction: real): (d: nat)
    requires 0.0 < fraction <= 1.0
    ensures d <= headroom
    ensures d as real <= headroom as real * fraction < (d + 1) as real
  {
    var part := headroom as real * fraction;
    assert 0.0 <= part <= headroom as real;
    part.Floor
  }

  function Donations<K>(slack: seq<(K, nat)>, fraction: real): (r: seq<(K, nat)>)
    requires 0.0 < fraction <= 1.0
    ensures |r| == |slack|
    ensures forall i :: 0 <= i < |slack| ==> r[i] == (slack[i].0, Donation(slack[i].1, fraction))
  {
    seq(|slack|, i requires 0 <= i < |slack| => (slack[i].0, Donation(slack[i].1, fraction)))
  }

  // ----- shares -----

  /** In proportion to excess, rounded down. */
  function Proportional<K>(total: nat, stressed: seq<(K, nat)>, excess: nat): (r: seq<(K, nat)>)
    requires excess > 0
    ensures |r| == |stressed|
    ensures forall i :: 0 <= i < |stressed| ==> r[i] == (stressed[i].0, (total * stressed[i].1) / excess)
  {
    seq(|stressed|, i requires 0 <= i < |stressed| =>
      NonNegativeShare(total, stressed[i].1, excess);
      (stressed[i].0, (total * stressed[i].1) / excess))
  }

  lemma NonNegativeShare(total: nat, part: nat, excess: nat)
    requires excess > 0
    ensures (total * part) / excess >= 0
  {
    assert total * part >= 0;
  }

  /** Evenly, the first `total % n` items one more. */
  function Even<K>(total: nat, stressed: seq<(K, nat)>): (r: seq<(K, nat)>)
    requires stressed != []
    ensures |r| == |stressed|
    ensures forall i :: 0 <= i < |stressed| ==>
      r[i] == (stressed[i].0, total / |stressed| + if i < total % |stressed| then 1 else 0)
  {
    seq(|stressed|, i requires 0 <= i < |stressed| =>
      (stressed[i].0, total / |stressed| + if i < total % |stressed| then 1 else 0))
  }

  /** The first item with the largest amount. */
  function Top<K>(items: seq<(K, nat)>): (t: nat)
    requires items != []
    ensures t < |items|
    ensures forall i :: 0 <= i < |items| ==> items[i].1 <= items[t].1
    ensures forall i :: 0 <= i < t ==> items[i].1 < items[t].1
  {
    if |items| == 1 then 0
    else
      var init := items[..|items| - 1];
      var t := Top(init);
      assert forall i :: 0 <= i < |init| ==> items[i] == init[i];
      if items[|items| - 1].1 > items[t].1 then |items| - 1 else t
  }

  lemma {:induction false} ProportionalSum<K>(total: nat, stressed: seq<(K, nat)>, excess: nat)
    requires excess > 0
    ensures Sum(Proportional(total, stressed, excess)) * excess <= total * Sum(stressed)
  {
    if stressed != [] {
      var rest := stressed[1..];
      ProportionalSum(total, rest, excess);
      assert Proportional(total, stressed, excess)[1..] == Proportional(total, rest, excess);
      var share := Proportional(total, stressed, excess)[0].1;
      assert share == (total * stressed[0].1) / excess;
      FloorBelow(total * stressed[0].1, excess);
      assert (share + Sum(Proportional(total, rest, excess))) * excess
        == share * excess + Sum(Proportional(total, rest, excess)) * excess;
      assert total * (stressed[0].1 + Sum(rest)) == total * stressed[0].1 + total * Sum(rest);
    }
  }

  lemma FloorBelow(a: nat, b: nat)
    requires b > 0
    ensures (a / b) * b <= a
  {
    assert a == (a / b) * b + a % b;
  }

  /** Rounded shares never exceed what is shared. */
  lemma ProportionalWithin<K>(total: nat, stressed: seq<(K, nat)>)
    requires Sum(stressed) > 0
    ensures Sum(Proportional(total, stressed, Sum(stressed))) <= total
  {
    ProportionalSum(total, stressed, Sum(stressed));
    CancelMul(Sum(Proportional(total, stressed, Sum(stressed))), total, Sum(stressed));
  }

  lemma CancelMul(a: int, b: int, t: nat)
    requires t > 0 && a * t <= b * t
    ensures a <= b
  {
    assert (b + 1) * t == b * t + t;
    if a > b {
      MulMono(b + 1, a, t);
    }
  }

  lemma MulMono(a: int, b: int, t: nat)
    requires a <= b
    ensures a * t <= b * t
  {
    assert (b - a) * t >= 0;
  }

  function EvenFrom<K>(stressed: seq<(K, nat)>, per: nat, extra: int): (r: seq<(K, nat)>)
    ensures |r| == |stressed|
    ensures forall i :: 0 <= i < |stressed| ==> r[i] == (stressed[i].0, per + if i < extra then 1 else 0)
  {
    seq(|stressed|, i requires 0 <= i < |stressed| => (stressed[i].0, per + if i < extra then 1 else 0))
  }

  lemma {:induction false} EvenFromSum<K>(stressed: seq<(K, nat)>, per: nat, extra: int)
    requires extra <= |stressed|
    ensures Sum(EvenFrom(stressed, per, extra)) == per * |stressed| + if extra > 0 then extra else 0
  {
    if stressed != [] {
      EvenFromSum(stressed[1..], per, extra - 1);
      assert EvenFrom(stressed, per, extra)[1..] == EvenFrom(stressed[1..], per, extra - 1);
      assert per * |stressed| == per * |stressed[1..]| + per;
    }
  }

  lemma EvenSum<K>(total: nat, stressed: seq<(K, nat)>)
    requires stressed != []
    ensures Sum(Even(total, stressed)) == total
  {
    var n := |stressed|;
    EvenFromSum(stressed, total / n, total % n);
    assert Even(total, stressed) == EvenFrom(stressed, total / n, total % n);
    assert total == (total / n) * n + total % n;
  }

  function Recipients<K(==)>(total: nat, stressed: seq<(K, nat)>): Dict<K>
    requires stressed != []
  {
    if Sum(stressed) > 0 then
      ProportionalWithin(total, stressed);
      var shares := Proportional(total, stressed, Sum(stressed));
      var recorded := Collect(shares);
      var remainder := total - Sum(shares);
      var top := stressed[Top(stressed)].0;
      if remainder > 0 then Put(recorded, top, Get(recorded, top) + remainder) else recorded
    else Collect(Even(total, stressed))
  }

  /** What the transfer is; `None` stands for the division by zero the source runs into when there
      is something to share and nobody to share it with. */
  function Share<K(==)>(slack: seq<(K, nat)>, stressed: seq<(K, nat)>, fraction: real): Option<Transfer<K>>
    requires 0.0 < fraction <= 1.0
  {
    var given := Donations(slack, fraction);
    var total := Sum(given);
    if total == 0 then Some(Transfer([], [], 0))
    else if stressed == [] then None
    else Some(Transfer(Collect(given), Recipients(total, stressed), total))
  }

  /** The rounded shares before the remainder is handed out. */
  function Shares<K>(total: nat, stressed: seq<(K, nat)>): seq<(K, nat)>
    requires stressed != []
  {
    if Sum(stressed) > 0 then Proportional(total, stressed, Sum(stressed)) else Even(total, stressed)
  }

  /** Every unit given away is received, exactly when no two donations and no two shares collide on
      a key; a donor never gives more than its headroom. */
  lemma {:induction false} ShareConserves<K>(slack: seq<(K, nat)>, stressed: seq<(K, nat)>, fraction: real)
    requires 0.0 < fraction <= 1.0
    requires Share(slack, stressed, fraction).Some?
    ensures
      var t := Share(slack, stressed, fraction).value;
      && (t.total == Sum(Donations(slack, fraction)))
      && (Sum(t.donors) == t.total <==> t.total == 0 || NoCollision(Donations(slack, fraction)))
      && (Sum(t.recipients) == t.total <==> t.total == 0 || NoCollision(Shares(t.total, stressed)))
  {
    var given := Donations(slack, fraction);
    var total := Sum(given);
    if total > 0 {
      CollectSum(given);
      RecipientsSum(total, stressed);
    }
  }

  lemma RecipientsSum<K>(total: nat, stressed: seq<(K, nat)>)
    requires stressed != []
    ensures Sum(Recipients(total, stressed)) == total <==> NoCollision(Shares(total, stressed))
  {
    var shares := Shares(total, stressed);
    CollectSum(shares);
    if Sum(stressed) > 0 {
      ProportionalWithin(total, stressed);
      var top := stressed[Top(stressed)].0;
      PutSum(Collect(shares), top, Get(Collect(shares), top) + (total - Sum(shares)));
    } else {
      EvenSum(total, stressed);
    }
  }

  lemma DistinctNoCollision<K>(a: seq<(K, nat)>, b: seq<(K, nat)>)
    requires DistinctKeys(a) && |a| == |b| && forall i :: 0 <= i < |a| ==> a[i].0 == b[i].0
    ensures NoCollision(b) && DistinctKeys(b)
  {
  }

  /** With distinct keys on both sides, donors and recipients sum to the same total. */
  lemma {:induction false} ShareBalances<K>(slack: seq<(K, nat)>, stressed: seq<(K, nat)>, fraction: real)
    requires 0.0 < fraction <= 1.0
    requires DistinctKeys(slack) && DistinctKeys(stressed)
    requires Share(slack, stressed, fraction).Some?
    ensures
      var t := Share(slack, stressed, fraction).value;
      Sum(t.donors) == t.total && Sum(t.recipients) == t.total
  {
    var t := Share(slack, stressed, fraction).value;
    ShareConserves(slack, stressed, fraction);
    DistinctNoCollision(slack, Donations(slack, fraction));
    if t.total > 0 {
      DistinctNoCollision(stressed, Shares(t.total, stressed));
    }
  }

  /** Proportional shares are the exact ones rounded down. */
  lemma {:induction false} ProportionalRoundsDown<K>(total: nat, stressed: seq<(K, nat)>, i: nat)
    requires Sum(stressed) > 0 && i < |stressed|
    ensures
      var share, e := Proportional(total, stressed, Sum(stressed))[i].1, Sum(stressed);
      share * e <= total * stressed[i].1 < (share + 1) * e
  {
    RoundDown(total * stressed[i].1, Sum(stressed));
  }

  lemma RoundDown(a: nat, e: nat)
    requires e > 0
    ensures (a / e) * e <= a < (a / e + 1) * e
  {
    assert a == (a / e) * e + a % e;
    assert (a / e + 1) * e == (a / e) * e + e;
  }

  /** Fewer units than there are stressed items are left over for the most stressed one. */
  lemma {:induction false} ProportionalRemainder<K>(total: nat, stressed: seq<(K, nat)>)
    requires Sum(stressed) > 0
    ensures 0 <= total - Sum(Proportional(total, stressed, Sum(stressed))) < |stressed|
  {
    var e := Sum(stressed);
    var s := Sum(Proportional(total, stressed, e));
    ProportionalWithin(total, stressed);
    ProportionalLeftover(total, stressed, e);
    LeftoverBelow(total, s, |stressed|, e);
  }

  lemma LeftoverBelow(total: int, s: int, n: int, t: nat)
    requires t > 0 && total * t - s * t < n * t
    ensures total - s < n
  {
    assert (total - s) * t == total * t - s * t;
    StrictCancelMul(total - s, n, t);
  }

  lemma StrictCancelMul(a: int, b: int, t: nat)
    requires t > 0 && a * t < b * t
    ensures a < b
  {
    if a >= b {
      MulMono(b, a, t);
    }
  }

  lemma {:induction false} ProportionalLeftover<K>(total: nat, stressed: seq<(K, nat)>, excess: nat)
    requires excess > 0
    ensures stressed != [] ==>
      total * Sum(stressed) - Sum(Proportional(total, stressed, excess)) * excess < |stressed| * excess
    ensures stressed == [] ==> Sum(stressed) == 0 && Sum(Proportional(total, stressed, excess)) == 0
  {
    if stressed != [] {
      var rest := stressed[1..];
      ProportionalLeftover(total, rest, excess);
      var shares := Proportional(total, stressed, excess);
      assert shares[1..] == Proportional(total, rest, excess);
      var a, share := total * stressed[0].1, shares[0].1;
      assert a == (a / excess) * excess + a % excess;
      assert a - share * excess < excess;
      assert (share + Sum(shares[1..])) * excess == share * excess + Sum(shares[1..]) * excess;
      assert total * (stressed[0].1 + Sum(rest)) == a + total * Sum(rest);
      assert |stressed| * excess == |rest| * excess + excess;
    }
  }

  // ----- what each key gets -----

  lemma {:induction false} PositiveIndex<K>(items: seq<(K, nat)>, i: nat) returns (k: nat)
    requires i < |items| && items[i].1 > 0
    ensures k < |Positive(items)| && Positive(items)[k] == items[i]
  {
    var n := |items| - 1;
    if i < n {
      k := PositiveIndex(items[..n], i);
    } else {
      k := |Positive(items[..n])|;
    }
  }

  lemma {:induction false} SumAtLeast<K>(items: seq<(K, nat)>, i: nat)
    requires i < |items|
    ensures items[i].1 <= Sum(items)
  {
    if i > 0 {
      SumAtLeast(items[1..], i - 1);
    }
  }

  lemma {:induction false} GetSnoc<K>(ds: Dict<K>, k: K)
    requires ds != [] && DistinctKeys(ds)
    ensures var last := ds[|ds| - 1];
      Get(ds, k) == if last.0 == k then last.1 else Get(ds[..|ds| - 1], k)
  {
    if |ds| > 1 {
      GetSnoc(ds[1..], k);
      assert ds[1..][..|ds| - 2] == ds[..|ds| - 1][1..];
    }
  }

  lemma {:induction false} GetAt<K>(ds: Dict<K>, i: nat)
    requires DistinctKeys(ds) && i < |ds|
    ensures Get(ds, ds[i].0) == ds[i].1
  {
    if i > 0 {
      GetAt(ds[1..], i - 1);
    }
  }

  lemma {:induction false} GetAbsent<K>(ds: Dict<K>, k: K)
    requires forall i :: 0 <= i < |ds| ==> ds[i].0 != k
    ensures Get(ds, k) == 0
  {
    if ds != [] {
      GetAbsent(ds[1..], k);
    }
  }

  lemma PositiveAt<K>(items: seq<(K, nat)>, i: nat)
    requires DistinctKeys(items) && i < |items|
    ensures DistinctKeys(Positive(items)) && Get(Positive(items), items[i].0) == items[i].1
  {
    CollectDistinct(items);
    if items[i].1 > 0 {
      var k := PositiveIndex(items, i);
      GetAt(Positive(items), k);
    } else {
      forall j | 0 <= j < |Positive(items)| ensures Positive(items)[j].0 != items[i].0 {
        var o := PositiveOrigin(items, j);
      }
      GetAbsent(Positive(items), items[i].0);
    }
  }

  lemma PositiveAbsent<K>(items: seq<(K, nat)>, k: K)
    requires forall i :: 0 <= i < |items| ==> items[i].0 != k
    ensures Get(Positive(items), k) == 0
  {
    forall j | 0 <= j < |Positive(items)| ensures Positive(items)[j].0 != k {
      var o := PositiveOrigin(items, j);
    }
    GetAbsent(Positive(items), k);
  }

  /** Of several positive items with one key, the last is the one recorded. */
  lemma {:induction false} LastIsRecorded<K>(items: seq<(K, nat)>, i: nat)
    requires i < |items| && items[i].1 > 0
    requires forall j :: i < j < |items| && items[j].1 > 0 ==> items[j].0 != items[i].0
    ensures Get(Collect(items), items[i].0) == items[i].1
  {
    var init, last := items[..|items| - 1], items[|items| - 1];
    if i < |init| {
      LastIsRecorded(init, i);
    }
    if last.1 > 0 {
      PutGet(Collect(init), last.0, last.1, items[i].0);
    }
  }

  /** The i-th item's amount is the largest, and the first that large. */
  ghost predicate FirstLargest<K>(items: seq<(K, nat)>, i: nat)
    requires i < |items|
  {
    && (forall j :: 0 <= j < |items| ==> items[j].1 <= items[i].1)
    && (forall j :: 0 <= j < i ==> items[j].1 < items[i].1)
  }

  /** With distinct keys, what each stressed item receives: where there is any excess, its share of the total in
      proportion to it, rounded down, and all that rounding leaves over for the first with the largest excess;
      where there is none, an even share, one more for as many of the first as there are units left over. */
  lemma {:induction false} SharesExactly<K>(total: nat, stressed: seq<(K, nat)>, i: nat)
    requires DistinctKeys(stressed) && i < |stressed|
    ensures var n, excess := |stressed|, Sum(stressed);
      var even := total / n + if i < total % n then 1 else 0;
      var most := excess > 0 && FirstLargest(stressed, i);
      var left := if most then total - Sum(Proportional(total, stressed, excess)) else 0;
      var got := Get(Recipients(total, stressed), stressed[i].0);
      if excess == 0 then got == even else got == (total * stressed[i].1) / excess + left
  {
    hide Get, Top, Even, Proportional;
    if Sum(stressed) > 0 {
      SharesInProportion(total, stressed, i);
    } else {
      SharesEven(total, stressed, i);
    }
  }

  lemma SharesInProportion<K>(total: nat, stressed: seq<(K, nat)>, i: nat)
    requires DistinctKeys(stressed) && i < |stressed| && Sum(stressed) > 0
    ensures var excess := Sum(stressed);
      var left := if FirstLargest(stressed, i) then total - Sum(Proportional(total, stressed, excess)) else 0;
      Get(Recipients(total, stressed), stressed[i].0) == (total * stressed[i].1) / excess + left
  {
    hide Get, Put, Positive, Collect, FirstLargest, Top, DistinctKeys;
    var shares := Proportional(total, stressed, Sum(stressed));
    ProportionalWithin(total, stressed);
    RecordedAt(stressed, shares, i);
    TopIsFirstLargest(stressed, i);
    KeysApart(stressed, i, Top(stressed));
    RestAdded(Collect(shares), stressed[Top(stressed)].0, total - Sum(shares), stressed[i].0);
  }

  lemma TopIsFirstLargest<K>(items: seq<(K, nat)>, i: nat)
    requires i < |items|
    ensures FirstLargest(items, i) <==> i == Top(items)
  {}

  lemma KeysApart<K>(items: seq<(K, nat)>, i: nat, j: nat)
    requires DistinctKeys(items) && i < |items| && j < |items|
    ensures items[i].0 == items[j].0 <==> i == j
  {}

  lemma RecordedAt<K>(items: seq<(K, nat)>, shares: seq<(K, nat)>, i: nat)
    requires DistinctKeys(items) && i < |items| == |shares|
    requires forall j :: 0 <= j < |items| ==> items[j].0 == shares[j].0
    ensures Get(Collect(shares), items[i].0) == shares[i].1
  {
    hide Get, Positive, Collect;
    DistinctNoCollision(items, shares);
    CollectDistinct(shares);
    PositiveAt(shares, i);
  }

  lemma RestAdded<K>(recorded: Dict<K>, k: K, rest: nat, other: K)
    ensures var all := if rest > 0 then Put(recorded, k, Get(recorded, k) + rest) else recorded;
      Get(all, other) == Get(recorded, other) + if other == k then rest else 0
  {
    hide Get, Put;
    PutGet(recorded, k, Get(recorded, k) + rest, other);
  }

  lemma SharesEven<K>(total: nat, stressed: seq<(K, nat)>, i: nat)
    requires DistinctKeys(stressed) && i < |stressed| && Sum(stressed) == 0
    ensures var n := |stressed|;
      Get(Recipients(total, stressed), stressed[i].0) == total / n + if i < total % n then 1 else 0
  {
    hide Get, Put, Positive, Collect;
    RecordedAt(stressed, Even(total, stressed), i);
  }

  // ----- the loops -----

  method CollectDonations<K(==)>(slack: seq<(K, nat)>, fraction: real) returns (donors: Dict<K>, total: nat)
    requires 0.0 < fraction <= 1.0
    ensures donors == Collect(Donations(slack, fraction))
    ensures total == Sum(Donations(slack, fraction))
  {
    ghost var given := Donations(slack, fraction);
    donors, total := [], 0;
    for i := 0 to |slack|
      invariant donors == Collect(given[..i])
      invariant total == Sum(given[..i])
    {
      assert given[..i + 1][..i] == given[..i];
      SumSnoc(given[..i + 1]);
      var donation := (slack[i].1 as real * fraction).Floor;
      assert donation == given[i].1;
      if donation > 0 {
        donors := Put(donors, slack[i].0, donation);
        total := total + donation;
      }
    }
    assert given[..|slack|] == given;
  }

  method ShareByExcess<K(==)>(total: nat, stressed: seq<(K, nat)>, excess: nat) returns (recipients: Dict<K>)
    requires stressed != [] && excess == Sum(stressed) > 0
    ensures recipients == Recipients(total, stressed)
  {
    ghost var shares := Proportional(total, stressed, excess);
    ProportionalWithin(total, stressed);
    recipients := [];
    var granted: nat := 0;
    for i := 0 to |stressed|
      invariant recipients == Collect(shares[..i])
      invariant granted == Sum(shares[..i])
    {
      assert shares[..i + 1][..i] == shares[..i];
      SumSnoc(shares[..i + 1]);
      NonNegativeShare(total, stressed[i].1, excess);
      var share: nat := (total * stressed[i].1) / excess;
      if share > 0 {
        recipients := Put(recipients, stressed[i].0, share);
        granted := granted + share;
      }
    }
    assert shares[..|stressed|] == shares;
    if granted < total {
      var top := MostStressed(stressed);
      recipients := Put(recipients, stressed[top].0, Get(recipients, stressed[top].0) + (total - granted));
    }
  }

  method MostStressed<K>(stressed: seq<(K, nat)>) returns (top: nat)
    requires stressed != []
    ensures top < |stressed| && top == Top(stressed)
    ensures forall i :: 0 <= i < |stressed| ==> stressed[i].1 <= stressed[top].1
  {
    top := 0;
    for i := 1 to |stressed|
      invariant top == Top(stressed[..i])
    {
      assert stressed[..i + 1][..i] == stressed[..i];
      if stressed[i].1 > stressed[top].1 {
        top := i;
      }
    }
    assert stressed[..|stressed|] == stressed;
  }

  method ShareEvenly<K(==)>(total: nat, stressed: seq<(K, nat)>) returns (recipients: Dict<K>)
    requires stressed != [] && Sum(stressed) == 0
    ensures recipients == Recipients(total, stressed)
  {
    var per := total / |stressed|;
    var rem := total - per * |stressed|;
    assert rem == total % |stressed|;
    ghost var shares := Even(total, stressed);
    recipients := [];
    for i := 0 to |stressed|
      invariant recipients == Collect(shares[..i])
    {
      assert shares[..i + 1][..i] == shares[..i];
      var share := per + if i < rem then 1 else 0;
      assert shares[i] == (stressed[i].0, share);
      if share > 0 {
        recipients := Put(recipients, stressed[i].0, share);
      }
    }
    assert shares[..|stressed|] == shares;
  }

  method AllocateTransfer<K(==)>(slack: seq<(K, nat)>, stressed: seq<(K, nat)>, fraction: real)
    returns (r: Option<Transfer<K>>)
    requires 0.0 < fraction <= 1.0
    ensures r == Share(slack, stressed, fraction)
  {
    var donors, total := CollectDonations(slack, fraction);
    if total == 0 {
      return Some(Transfer([], [], 0));
    }
    if stressed == [] {
      return None;
    }
    var excess: nat := 0;
    for i := 0 to |stressed|
      invariant excess + Sum(stressed[i..]) == Sum(stressed)
    {
      excess := excess + stressed[i].1;
    }
    var recipients: Dict<K>;
    if excess > 0 {
      recipients := ShareByExcess(total, stressed, excess);
    } else {
      recipients := ShareEvenly(total, stressed);
    }
    return Some(Transfer(donors, recipients, total));
  }
}
