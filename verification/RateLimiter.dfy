/** The per-identity sliding-window limiter. Times and the window are whole microseconds. */
module RateLimiter {
  import opened Common
  import opened Windows

  datatype Decision = Decision(allowed: bool, retryAfterSeconds: nat)

  datatype Config = Config(limit: nat, window: nat, overrides: map<string, nat>)

  type Buckets = map<string, seq<int>>

  const MICROSECONDS_PER_SECOND := 1000000

  ghost predicate ValidConfig(c: Config) {
    c.limit >= 1 && c.window > 0 && forall id :: id in c.overrides ==> id != "" && c.overrides[id] >= 1
  }

  function Limit(c: Config, id: string): nat {
    if id in c.overrides then c.overrides[id] else c.limit
  }

  function BucketOf(b: Buckets, id: string): seq<int> {
    if id in b then b[id] else []
  }

  /** What a check at `now` leaves in a bucket: every check is recorded, allowed or not. */
  function Checked(bucket: seq<int>, now: int, window: nat): seq<int> {
    Trim(bucket, now - window) + [now]
  }

  class IdentityRateLimiter {
    const config: Config
    var buckets: Buckets

    constructor (config: Config)
      requires ValidConfig(config)
      ensures this.config == config && buckets == map[]
    {
      this.config := config;
      buckets := map[];
    }

    /** An identity is refused exactly when its checks still in the window outnumber its limit; it is then
        told to come back one second after its oldest one leaves, rounded down. */
    method Check(id: string, now: int) returns (d: Decision)
      requires ValidConfig(config)
      modifies this`buckets
      ensures buckets == old(buckets)[id := Checked(BucketOf(old(buckets), id), now, config.window)]
      ensures d.allowed <==>
        |BucketOf(buckets, id)| <= if id in config.overrides then config.overrides[id] else config.limit
      ensures d.allowed ==> d.retryAfterSeconds == 0
      ensures !d.allowed ==> var left := BucketOf(buckets, id)[0] + config.window - now;
        (d.retryAfterSeconds - 1) * MICROSECONDS_PER_SECOND <= left < d.retryAfterSeconds * MICROSECONDS_PER_SECOND
    {
      var before := BucketOf(buckets, id);
      var cutoff := now - config.window;
      var bucket := TrimFront(before, cutoff);
      ghost var k := TrimDrops(before, cutoff);
      bucket := bucket + [now];
      buckets := buckets[id := bucket];
      if |bucket| > Limit(config, id) {
        var left := bucket[0] + config.window - now;
        assert left >= 0;
        return Decision(false, left / MICROSECONDS_PER_SECOND + 1);
      }
      d := Decision(true, 0);
    }

    method Reset(ids: Option<seq<string>>)
      modifies this`buckets
      ensures ids.None? ==> buckets == map[]
      ensures ids.Some? ==> buckets == old(buckets) - (set id | id in ids.value)
    {
      if ids.None? {
        buckets := map[];
        return;
      }
      for i := 0 to |ids.value|
        invariant buckets == old(buckets) - (set id | id in ids.value[..i])
      {
        buckets := buckets - {ids.value[i]};
        assert ids.value[..i + 1] == ids.value[..i] + [ids.value[i]];
      }
      assert ids.value[..|ids.value|] == ids.value;
    }
  }

  // ----- any run of checks, of any identities -----

  datatype Attempt = Attempt(id: string, at: int)

  function Served(c: Config, attempts: seq<Attempt>): Buckets {
    if attempts == [] then map[]
    else
      var before, last := Served(c, attempts[..|attempts| - 1]), attempts[|attempts| - 1];
      before[last.id := Checked(BucketOf(before, last.id), last.at, c.window)]
  }

  /** The times of one identity's own checks. */
  ghost function OwnTimes(attempts: seq<Attempt>, id: string): seq<int> {
    if attempts == [] then []
    else
      var last := attempts[|attempts| - 1];
      OwnTimes(attempts[..|attempts| - 1], id) + if last.id == id then [last.at] else []
  }

  ghost predicate Allowed(c: Config, before: seq<Attempt>, a: Attempt) {
    |Checked(BucketOf(Served(c, before), a.id), a.at, c.window)| <= Limit(c, a.id)
  }

  /** How many of an identity's checks between `from` and `to` were allowed. */
  ghost function AllowedIn(c: Config, attempts: seq<Attempt>, id: string, from: int, to: int): nat {
    if attempts == [] then 0
    else
      var before, last := attempts[..|attempts| - 1], attempts[|attempts| - 1];
      var counts := last.id == id && from <= last.at <= to && Allowed(c, before, last);
      AllowedIn(c, before, id, from, to) + if counts then 1 else 0
  }

  /** An identity's bucket depends on its own checks alone: it is their times, less some that had left the
      window by the last of them. */
  lemma {:induction false} BucketHolds(c: Config, attempts: seq<Attempt>, id: string, now: int)
    requires Rising(OwnTimes(attempts, id)) && forall t :: t in OwnTimes(attempts, id) ==> t <= now
    ensures Holds(BucketOf(Served(c, attempts), id), OwnTimes(attempts, id), now - c.window)
  {
    hide Holds;
    if attempts == [] {
      HoldsAll([], now - c.window);
    } else {
      var before, last := attempts[..|attempts| - 1], attempts[|attempts| - 1];
      if last.id == id {
        RisingInit(OwnTimes(before, id), last.at);
        BucketHolds(c, before, id, last.at);
        var bucket, times := BucketOf(Served(c, before), id), OwnTimes(before, id);
        HoldsTrimmed(bucket, times, last.at - c.window, last.at - c.window);
        HoldsSnoc(Trim(bucket, last.at - c.window), times, last.at - c.window, last.at);
        assert last.at in OwnTimes(attempts, id);
        HoldsLater(BucketOf(Served(c, attempts), id), OwnTimes(attempts, id), last.at - c.window, now - c.window);
      } else {
        assert OwnTimes(attempts, id) == OwnTimes(before, id);
        BucketHolds(c, before, id, now);
      }
    }
  }

  lemma {:induction false} AllowedAreChecks(c: Config, attempts: seq<Attempt>, id: string, from: int, to: int)
    ensures AllowedIn(c, attempts, id, from, to) <= CountIn(OwnTimes(attempts, id), from, to)
  {
    if attempts != [] {
      var before, last := attempts[..|attempts| - 1], attempts[|attempts| - 1];
      AllowedAreChecks(c, before, id, from, to);
      CountSnoc(OwnTimes(before, id), last.at, from, to);
      var times := OwnTimes(before, id);
      assert times + [] == times;
    }
  }

  /** When a check in the window is allowed, the checks before it leave room for it. */
  lemma AllowedLeavesRoom(c: Config, before: seq<Attempt>, a: Attempt, from: int)
    requires Rising(OwnTimes(before, a.id)) && forall t :: t in OwnTimes(before, a.id) ==> t <= a.at
    requires from <= a.at <= from + c.window && Allowed(c, before, a)
    ensures AllowedIn(c, before, a.id, from, from + c.window) + 1 <= Limit(c, a.id)
  {
    hide Holds;
    var bucket, times, cutoff := BucketOf(Served(c, before), a.id), OwnTimes(before, a.id), a.at - c.window;
    BucketHolds(c, before, a.id, a.at);
    HoldsTrimmed(bucket, times, cutoff, cutoff);
    HeldCount(Trim(bucket, cutoff), times, cutoff, from, from + c.window);
    AllowedAreChecks(c, before, a.id, from, from + c.window);
  }

  /** Over any run in which the identity's own clock does not go back, and no reset, every closed window of
      the configured length holds at most its limit of allowed checks. */
  lemma {:induction false} WindowHoldsAtMostLimit(c: Config, attempts: seq<Attempt>, id: string, from: int)
    requires Rising(OwnTimes(attempts, id))
    ensures AllowedIn(c, attempts, id, from, from + c.window)
      <= if id in c.overrides then c.overrides[id] else c.limit
  {
    hide Holds, Allowed, Rising;
    if attempts != [] {
      var before, last := attempts[..|attempts| - 1], attempts[|attempts| - 1];
      var to := from + c.window;
      if last.id != id {
        assert OwnTimes(attempts, id) == OwnTimes(before, id);
        WindowHoldsAtMostLimit(c, before, id, from);
      } else {
        RisingInit(OwnTimes(before, id), last.at);
        if from <= last.at <= to && Allowed(c, before, last) {
          AllowedLeavesRoom(c, before, last, from);
        } else {
          WindowHoldsAtMostLimit(c, before, id, from);
        }
      }
    }
  }

  /** Over any run in which the identity's own clock does not go back, and no reset, its next check is allowed
      exactly when its own earlier ones in the window that ends now, refused ones too, are fewer than its limit. */
  lemma {:induction false} AllowedExactly(c: Config, attempts: seq<Attempt>, id: string, now: int)
    requires Rising(OwnTimes(attempts, id)) && forall t :: t in OwnTimes(attempts, id) ==> t <= now
    ensures Allowed(c, attempts, Attempt(id, now)) <==>
      CountIn(OwnTimes(attempts, id), now - c.window, now) < if id in c.overrides then c.overrides[id] else c.limit
  {
    hide Holds, Rising;
    BucketHolds(c, attempts, id, now);
    HeldCountIs(BucketOf(Served(c, attempts), id), OwnTimes(attempts, id), now - c.window, now);
  }

  // ----- what a refusal promises -----

  /** After a check, the identity's next one at `t` is allowed exactly when all but fewer than `limit` of the
      times in its bucket have left the window: denied checks are among them. */
  lemma NextAllowedIff(bucket: seq<int>, t: int, window: nat, limit: nat)
    requires Rising(bucket) && 1 <= limit <= |bucket|
    ensures |Checked(bucket, t, window)| <= limit <==> bucket[|bucket| - limit] < t - window
  {
    var k := TrimDrops(bucket, t - window);
    if k <= |bucket| - limit {
      assert bucket[k] <= bucket[|bucket| - limit];
    }
  }

  /** A refused identity that comes back `retry` seconds later, as it is told to, is allowed exactly when all but
      fewer than `limit` of its recorded times lie before a moment at most one second after the oldest. */
  lemma RetryPromiseIff(bucket: seq<int>, now: int, retry: nat, window: nat, limit: nat)
    requires Rising(bucket) && 1 <= limit < |bucket|
    requires var left := bucket[0] + window - now;
      (retry - 1) * MICROSECONDS_PER_SECOND <= left < retry * MICROSECONDS_PER_SECOND
    ensures var back := now + retry * MICROSECONDS_PER_SECOND;
      && bucket[0] < back - window <= bucket[0] + MICROSECONDS_PER_SECOND
      && (|Checked(bucket, back, window)| <= limit <==> bucket[|bucket| - limit] < back - window)
  {
    NextAllowedIff(bucket, now + retry * MICROSECONDS_PER_SECOND, window, limit);
  }

  /** So coming back when told to can be refused again: the refused check counts too. */
  lemma RetryAfterCanFail()
    ensures var second := MICROSECONDS_PER_SECOND;
      var once := Checked([], 0, 10 * second);
      var twice := Checked(once, 5 * second, 10 * second);
      var retryAfter := (twice[0] + 10 * second - 5 * second) / second + 1;
      |once| == 1 && |twice| == 2 && |Checked(twice, (5 + retryAfter) * second, 10 * second)| == 2
  {
    var second := MICROSECONDS_PER_SECOND;
    var once := Checked([], 0, 10 * second);
    assert once == [0];
    var twice := Checked(once, 5 * second, 10 * second);
    assert twice == [0, 5 * second];
    assert twice[1..] == [5 * second];
    assert Trim(twice, second) == Trim(twice[1..], second) == [5 * second];
  }
}
