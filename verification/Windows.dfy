/** Sliding windows: a queue of times, oldest first, trimmed from the front. */
module Windows {
  import opened Common

  function Trim(queue: seq<int>, cutoff: int): seq<int> {
    if queue != [] && queue[0] < cutoff then Trim(queue[1..], cutoff) else queue
  }

  method TrimFront(queue: seq<int>, cutoff: int) returns (r: seq<int>)
    ensures r == Trim(queue, cutoff)
  {
    r := queue;
    while r != [] && r[0] < cutoff
      invariant Trim(r, cutoff) == Trim(queue, cutoff)
      decreases |r|
    {
      r := r[1..];
    }
  }

  /** Trimming takes a prefix, all of it before the cutoff, and stops at the first time that is not. */
  lemma {:induction false} TrimDrops(queue: seq<int>, cutoff: int) returns (k: nat)
    ensures k <= |queue| && Trim(queue, cutoff) == queue[k..]
    ensures forall i :: 0 <= i < k ==> queue[i] < cutoff
    ensures k < |queue| ==> queue[k] >= cutoff
  {
    k := 0;
    if queue != [] && queue[0] < cutoff {
      var rest := TrimDrops(queue[1..], cutoff);
      k := rest + 1;
      assert queue[1..][rest..] == queue[k..];
    }
  }

  ghost predicate Rising(times: seq<int>) {
    forall i, j :: 0 <= i < j < |times| ==> times[i] <= times[j]
  }

  lemma RisingInit(times: seq<int>, t: int)
    requires Rising(times + [t])
    ensures Rising(times) && forall x :: x in times ==> x <= t
  {
    var all := times + [t];
    forall i, j | 0 <= i < j < |times| ensures times[i] <= times[j] {
      assert all[i] <= all[j];
    }
    forall i | 0 <= i < |times| ensures times[i] <= t {
      assert all[i] <= all[|times|];
    }
  }

  lemma RisingSnoc(times: seq<int>, t: int)
    requires Rising(times) && forall x :: x in times ==> x <= t
    ensures Rising(times + [t])
  {
    forall i | 0 <= i < |times| ensures times[i] <= t {
      assert times[i] in times;
    }
  }

  function Between(from: int, to: int): int -> bool {
    t => from <= t <= to
  }

  function CountIn(times: seq<int>, from: int, to: int): nat {
    CountIf(times, Between(from, to))
  }

  lemma CountSnoc(times: seq<int>, t: int, from: int, to: int)
    ensures CountIn(times + [t], from, to) == CountIn(times, from, to) + if from <= t <= to then 1 else 0
  {
    CountIfSnoc(times, t, Between(from, to));
  }

  /** The queue is what the history holds, less some first times that are all before the cutoff. */
  ghost predicate Holds(queue: seq<int>, history: seq<int>, cutoff: int) {
    exists k: nat :: DroppedBefore(queue, history, cutoff, k)
  }

  ghost predicate DroppedBefore(queue: seq<int>, history: seq<int>, cutoff: int, k: nat) {
    k <= |history| && queue == history[k..] && forall i :: 0 <= i < k ==> history[i] < cutoff
  }

  lemma HoldsAll(history: seq<int>, cutoff: int)
    ensures Holds(history, history, cutoff)
  {
    assert DroppedBefore(history, history, cutoff, 0);
  }

  lemma HoldsLater(queue: seq<int>, history: seq<int>, cutoff: int, later: int)
    requires Holds(queue, history, cutoff) && cutoff <= later
    ensures Holds(queue, history, later)
  {
    var k: nat :| DroppedBefore(queue, history, cutoff, k);
    assert DroppedBefore(queue, history, later, k);
  }

  lemma HoldsTrimmed(queue: seq<int>, history: seq<int>, earlier: int, cutoff: int)
    requires Holds(queue, history, earlier) && earlier <= cutoff
    ensures Holds(Trim(queue, cutoff), history, cutoff)
  {
    var k: nat :| DroppedBefore(queue, history, earlier, k);
    var more := TrimDrops(queue, cutoff);
    assert history[k..][more..] == history[k + more..];
    forall i | 0 <= i < k + more ensures history[i] < cutoff {
      if i >= k {
        assert history[i] == queue[i - k];
      }
    }
    assert DroppedBefore(Trim(queue, cutoff), history, cutoff, k + more);
  }

  lemma HoldsSnoc(queue: seq<int>, history: seq<int>, cutoff: int, t: int)
    requires Holds(queue, history, cutoff)
    ensures Holds(queue + [t], history + [t], cutoff)
  {
    var k: nat :| DroppedBefore(queue, history, cutoff, k);
    assert DroppedBefore(queue + [t], history + [t], cutoff, k);
  }

  lemma {:induction false} CountAtMost(times: seq<int>, k: nat, from: int, to: int)
    requires k <= |times| && forall i :: 0 <= i < k ==> times[i] < from
    ensures CountIn(times, from, to) <= |times| - k
  {
    if k < |times| {
      CountAtMost(times[..|times| - 1], k, from, to);
    } else if k > 0 {
      CountAtMost(times[..|times| - 1], k - 1, from, to);
    }
  }

  /** Every time of the history from the cutoff on is still in the queue. */
  lemma HeldCount(queue: seq<int>, history: seq<int>, cutoff: int, from: int, to: int)
    requires Holds(queue, history, cutoff) && cutoff <= from
    ensures CountIn(history, from, to) <= |queue|
  {
    var k: nat :| DroppedBefore(queue, history, cutoff, k);
    CountAtMost(history, k, from, to);
  }

  lemma {:induction false} CountExactly(times: seq<int>, k: nat, from: int, to: int)
    requires k <= |times| && forall i :: 0 <= i < k ==> times[i] < from
    requires forall i :: k <= i < |times| ==> from <= times[i] <= to
    ensures CountIn(times, from, to) == |times| - k
  {
    if k < |times| {
      CountExactly(times[..|times| - 1], k, from, to);
    } else if k > 0 {
      CountExactly(times[..|times| - 1], k - 1, from, to);
    }
  }

  /** Trimmed to a cutoff, a queue is exactly the times of a rising history from the cutoff on. */
  lemma HeldCountIs(queue: seq<int>, history: seq<int>, cutoff: int, to: int)
    requires Holds(queue, history, cutoff) && Rising(history) && forall t :: t in history ==> t <= to
    ensures |Trim(queue, cutoff)| == CountIn(history, cutoff, to)
  {
    var k: nat :| DroppedBefore(queue, history, cutoff, k);
    var more := TrimDrops(queue, cutoff);
    forall i | 0 <= i < k + more ensures history[i] < cutoff {
      if i >= k {
        assert history[i] == queue[i - k];
      }
    }
    forall i | k + more <= i < |history| ensures cutoff <= history[i] <= to {
      assert history[k + more] == queue[more];
      assert history[i] in history;
    }
    CountExactly(history, k + more, cutoff, to);
  }
}
