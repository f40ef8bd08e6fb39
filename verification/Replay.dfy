/** Envelope freshness: the time window, and the in-memory cache that reserves each (sender, nonce),
    shared by threads that interleave. Times and spans are whole microseconds. */
module Replay {
  import opened Common

  datatype Envelope = Envelope(sender: string, nonce: string, issuedAt: int, expiresAt: int)

  datatype Config = Config(maxSkew: int, maxTtl: int)

  datatype Denial = IssuedInFuture | Expired | InvalidWindow | TtlExceeded | NotGenuine | ReplayDetected

  type Key = (string, string)

  type Entries = map<Key, int>

  function KeyOf(e: Envelope): Key {
    (e.sender, e.nonce)
  }

  // ----- the time window -----

  function CheckWindow(e: Envelope, current: int, cfg: Config): Option<Denial> {
    if e.issuedAt - current > cfg.maxSkew then Some(IssuedInFuture)
    else if current - e.expiresAt > cfg.maxSkew then Some(Expired)
    else if e.expiresAt <= e.issuedAt then Some(InvalidWindow)
    else if e.expiresAt - e.issuedAt > cfg.maxTtl then Some(TtlExceeded)
    else None
  }

  /** The window admits an envelope exactly during its life widened by the skew at both ends, and only
      if that life is neither empty nor longer than allowed. */
  lemma WindowAdmits(e: Envelope, current: int, cfg: Config)
    ensures var inLife := e.issuedAt - cfg.maxSkew <= current <= e.expiresAt + cfg.maxSkew;
      CheckWindow(e, current, cfg).None? <==> inLife && 0 < e.expiresAt - e.issuedAt <= cfg.maxTtl
  {}

  function TimeToLive(e: Envelope, current: int): nat {
    if e.expiresAt < current then 0 else e.expiresAt - current
  }

  // ----- the cache -----

  /** What is left at `now`. */
  function Purged(entries: Entries, now: int): Entries {
    map k | k in entries && entries[k] > now :: entries[k]
  }

  function Reserve(entries: Entries, key: Key, ttl: int, now: int): (Entries, bool) {
    var left := Purged(entries, now);
    if key in left then (left, false) else (left[key := now + ttl], true)
  }

  /** `now` is the clock as each method reads it. */
  class InMemoryReplayCache {
    var entries: Entries

    constructor ()
      ensures entries == map[]
    {
      entries := map[];
    }

    method Purge(now: int)
      modifies this
      ensures entries == Purged(old(entries), now)
    {
      var expired := set k | k in entries && entries[k] <= now;
      while expired != {}
        invariant expired <= entries.Keys
        invariant forall k :: k in entries ==> k in old(entries) && entries[k] == old(entries)[k]
        invariant forall k :: k in old(entries) ==> (k in expired ==> old(entries)[k] <= now)
        invariant forall k :: k in old(entries) && old(entries)[k] > now ==> k in entries
        invariant forall k :: k in entries && entries[k] <= now ==> k in expired
        decreases |expired|
      {
        var key :| key in expired;
        entries := entries - {key};
        expired := expired - {key};
      }
    }

    method Seen(sender: string, nonce: string, now: int) returns (seen: bool)
      modifies this
      ensures entries == Purged(old(entries), now)
      ensures seen <==> (sender, nonce) in old(entries) && old(entries)[(sender, nonce)] > now
    {
      Purge(now);
      seen := (sender, nonce) in entries;
    }

    method Mark(sender: string, nonce: string, ttl: int, now: int)
      modifies this
      ensures entries == old(entries)[(sender, nonce) := now + ttl]
    {
      entries := entries[(sender, nonce) := now + ttl];
    }

    method MarkIfNew(sender: string, nonce: string, ttl: int, now: int) returns (isNew: bool)
      modifies this
      ensures (entries, isNew) == Reserve(old(entries), (sender, nonce), ttl, now)
    {
      Purge(now);
      var key := (sender, nonce);
      if key in entries {
        return false;
      }
      entries := entries[key := now + ttl];
      isNew := true;
    }
  }

  // ----- verification, one envelope after another -----

  /** The freshness part of verifying `e`. The clock is read twice: `current` for the time window and the
      time to live, and later `now` by the cache. `genuine` stands for the digest, signature and capability
      checks made in between. */
  function Freshness(entries: Entries, e: Envelope, genuine: bool, current: int, now: int, cfg: Config)
    : (Entries, Option<Denial>)
  {
    var window := CheckWindow(e, current, cfg);
    if window.Some? then (entries, window)
    else if !genuine then (entries, Some(NotGenuine))
    else
      var reserved := Reserve(entries, KeyOf(e), TimeToLive(e, current), now);
      (reserved.0, if reserved.1 then None else Some(ReplayDetected))
  }

  method VerifyEnvelope(cache: InMemoryReplayCache, e: Envelope, genuine: bool, current: int, now: int, cfg: Config)
    returns (denial: Option<Denial>)
    modifies cache
    ensures (cache.entries, denial) == Freshness(old(cache.entries), e, genuine, current, now, cfg)
  {
    if e.issuedAt - current > cfg.maxSkew {
      return Some(IssuedInFuture);
    }
    if current - e.expiresAt > cfg.maxSkew {
      return Some(Expired);
    }
    if e.expiresAt <= e.issuedAt {
      return Some(InvalidWindow);
    }
    if e.expiresAt - e.issuedAt > cfg.maxTtl {
      return Some(TtlExceeded);
    }
    if !genuine {
      return Some(NotGenuine);
    }
    var isNew := cache.MarkIfNew(e.sender, e.nonce, TimeToLive(e, current), now);
    denial := if isNew then None else Some(ReplayDetected);
  }

  /** An envelope shown to the verifier, with its two readings of the clock. */
  datatype Arrival = Arrival(envelope: Envelope, genuine: bool, current: int, now: int)

  function Serve(entries: Entries, arrivals: seq<Arrival>, cfg: Config): Entries {
    if arrivals == [] then entries
    else
      var before, last := Serve(entries, arrivals[..|arrivals| - 1], cfg), arrivals[|arrivals| - 1];
      Freshness(before, last.envelope, last.genuine, last.current, last.now, cfg).0
  }

  /** Traffic under other keys leaves an entry alone until its time is up. */
  lemma {:induction false} OthersKeep(entries: Entries, arrivals: seq<Arrival>, cfg: Config, key: Key, until: int)
    requires forall a :: a in arrivals ==> KeyOf(a.envelope) != key && a.now <= until
    requires key in entries
    ensures var after := Serve(entries, arrivals, cfg); key in after && after[key] > until <==> entries[key] > until
    ensures var after := Serve(entries, arrivals, cfg); key in after ==> after[key] == entries[key]
  {
    if arrivals != [] {
      OthersKeep(entries, arrivals[..|arrivals| - 1], cfg, key, until);
    }
  }

  /** A genuine envelope accepted at the readings (current, now) and shown again, with any traffic under other
      keys between, is accepted again exactly when the verifier's second reading is in the window and the cache's
      has reached its expiry, put off by what lay between the first two readings. So it is refused until then,
      and not through the skew that the window still allows. */
  lemma {:induction false} ReplayRefusedUntilExpiry(
    entries: Entries, e: Envelope, current: int, now: int, between: seq<Arrival>, current2: int, now2: int, cfg: Config)
    requires current <= now <= now2
    requires forall a :: a in between ==> KeyOf(a.envelope) != KeyOf(e) && a.now <= now2
    requires Freshness(entries, e, true, current, now, cfg).1 == None
    ensures var after := Serve(Freshness(entries, e, true, current, now, cfg).0, between, cfg);
      Freshness(after, e, true, current2, now2, cfg).1 == None <==>
        && e.issuedAt - cfg.maxSkew <= current2 <= e.expiresAt + cfg.maxSkew
        && now2 >= e.expiresAt + (now - current)
  {
    hide CheckWindow;
    var reserved := Freshness(entries, e, true, current, now, cfg).0;
    assert reserved[KeyOf(e)] == now + TimeToLive(e, current);
    OthersKeep(reserved, between, cfg, KeyOf(e), now2);
    WindowAdmits(e, current, cfg);
    WindowAdmits(e, current2, cfg);
  }

  /** So within the skew after its expiry an envelope can be accepted twice. */
  lemma AcceptedTwiceWithinSkew()
    ensures var e, cfg := Envelope("alice", "n", 0, 100), Config(60, 300);
      var once := Freshness(map[], e, true, 50, 50, cfg);
      once.1 == None && Freshness(once.0, e, true, 130, 130, cfg).1 == None
  {
    var e, cfg := Envelope("alice", "n", 0, 100), Config(60, 300);
    var once := Freshness(map[], e, true, 50, 50, cfg);
    assert once.0[("alice", "n")] == 100;
    assert KeyOf(e) !in Purged(once.0, 130);
  }

  // ----- threads sharing the cache -----

  /** Where a thread is: past the window check made at `current`, holding the `now` it read for
      reserving or for looking, or neither. */
  datatype Thread =
    | Idle
    | Checked(envelope: Envelope, current: int)
    | Reserving(envelope: Envelope, current: int, now: int)
    | Looking(now: int)

  /** An acceptance, with the clock at the moment the lock was held. */
  datatype Acceptance = Acceptance(envelope: Envelope, at: int)

  datatype State = State(clock: int, threads: map<nat, Thread>, entries: Entries, accepted: seq<Acceptance>)

  datatype Step =
    | Wait(span: nat)
    | Begin(t: nat, envelope: Envelope, genuine: bool)
    | ReadClock(t: nat)
    | CommitReserve(t: nat)
    | BeginLook(t: nat)
    | CommitLook(t: nat)

  function At(s: State, t: nat): Thread {
    if t in s.threads then s.threads[t] else Idle
  }

  /** One step of one thread, or of the clock; a step its thread is not at changes nothing. The clock is
      read before the lock is taken, and what is done under the lock is one step. */
  function Next(cfg: Config, s: State, step: Step): State {
    match step
    case Wait(span) => s.(clock := s.clock + span)
    case Begin(t, e, genuine) =>
      if At(s, t) != Idle || !genuine || CheckWindow(e, s.clock, cfg).Some? then s
      else s.(threads := s.threads[t := Checked(e, s.clock)])
    case ReadClock(t) =>
      var thread := At(s, t);
      if !thread.Checked? then s
      else s.(threads := s.threads[t := Reserving(thread.envelope, thread.current, s.clock)])
    case CommitReserve(t) =>
      var thread := At(s, t);
      if !thread.Reserving? then s
      else
        var ttl := TimeToLive(thread.envelope, thread.current);
        var (entries, isNew) := Reserve(s.entries, KeyOf(thread.envelope), ttl, thread.now);
        var accepted := if isNew then s.accepted + [Acceptance(thread.envelope, s.clock)] else s.accepted;
        State(s.clock, s.threads[t := Idle], entries, accepted)
    case BeginLook(t) =>
      if At(s, t) != Idle then s else s.(threads := s.threads[t := Looking(s.clock)])
    case CommitLook(t) =>
      var thread := At(s, t);
      if !thread.Looking? then s
      else s.(threads := s.threads[t := Idle], entries := Purged(s.entries, thread.now))
  }

  /** A thread never holds a reading later than the clock, nor a reserving reading before its check. */
  predicate Timely(thread: Thread, clock: int) {
    match thread
    case Idle => true
    case Checked(_, current) => current <= clock
    case Reserving(_, current, now) => current <= now <= clock
    case Looking(now) => now <= clock
  }

  /** While an accepted envelope has not expired its key stays reserved at least until it does. */
  ghost predicate Guarded(entries: Entries, clock: int, e: Envelope) {
    e.expiresAt <= clock || (KeyOf(e) in entries && entries[KeyOf(e)] >= e.expiresAt)
  }

  ghost predicate Apart(accepted: seq<Acceptance>, i: nat, j: nat)
    requires i < j < |accepted|
  {
    KeyOf(accepted[i].envelope) == KeyOf(accepted[j].envelope) ==> accepted[j].at >= accepted[i].envelope.expiresAt
  }

  ghost predicate Inv(s: State) {
    && (forall t :: t in s.threads ==> Timely(s.threads[t], s.clock))
    && (forall a :: a in s.accepted ==> Guarded(s.entries, s.clock, a.envelope))
    && (forall i, j :: 0 <= i < j < |s.accepted| ==> Apart(s.accepted, i, j))
  }

  lemma PurgeGuards(entries: Entries, clock: int, now: int, e: Envelope)
    requires now <= clock && Guarded(entries, clock, e)
    ensures Guarded(Purged(entries, now), clock, e)
  {}

  lemma CommitKeepsInv(cfg: Config, s: State, t: nat)
    requires Inv(s)
    ensures Inv(Next(cfg, s, CommitReserve(t)))
  {
    hide CheckWindow;
    var thread := At(s, t);
    if thread.Reserving? {
      var next := Next(cfg, s, CommitReserve(t));
      var e := thread.envelope;
      var left := Purged(s.entries, thread.now);
      forall a | a in s.accepted ensures Guarded(left, s.clock, a.envelope) {
        PurgeGuards(s.entries, s.clock, thread.now, a.envelope);
      }
      if KeyOf(e) !in left {
        forall a | a in s.accepted ensures Guarded(next.entries, s.clock, a.envelope) {
          assert Guarded(left, s.clock, a.envelope);
        }
        assert Guarded(next.entries, s.clock, e);
        forall i, j | 0 <= i < j < |next.accepted| ensures Apart(next.accepted, i, j) {
          if j < |s.accepted| {
            assert Apart(s.accepted, i, j);
          } else {
            assert Guarded(left, s.clock, s.accepted[i].envelope);
          }
        }
      }
    }
  }

  lemma NextKeepsInv(cfg: Config, s: State, step: Step)
    requires Inv(s)
    ensures Inv(Next(cfg, s, step))
  {
    match step
    case CommitReserve(t) =>
      CommitKeepsInv(cfg, s, t);
    case CommitLook(t) =>
      var thread := At(s, t);
      if thread.Looking? {
        forall a | a in s.accepted ensures Guarded(Purged(s.entries, thread.now), s.clock, a.envelope) {
          PurgeGuards(s.entries, s.clock, thread.now, a.envelope);
        }
      }
    case _ =>
  }

  ghost function AfterSteps(cfg: Config, s: State, steps: seq<Step>): State
    decreases |steps|
  {
    if steps == [] then s else AfterSteps(cfg, Next(cfg, s, steps[0]), steps[1..])
  }

  lemma {:induction false} StepsKeepInv(cfg: Config, s: State, steps: seq<Step>)
    requires Inv(s)
    ensures Inv(AfterSteps(cfg, s, steps))
    decreases |steps|
  {
    hide Inv, Next;
    if steps != [] {
      NextKeepsInv(cfg, s, steps[0]);
      StepsKeepInv(cfg, Next(cfg, s, steps[0]), steps[1..]);
    }
  }

  /** What a fresh cache, started at clock `start`, accepts in a run. */
  ghost function Accepted(cfg: Config, start: int, steps: seq<Step>): seq<Acceptance> {
    AfterSteps(cfg, State(start, map[], map[], []), steps).accepted
  }

  /** In every interleaving of threads that share one cache, an accepted (sender, nonce) is accepted again
      only once the clock has reached the first acceptance's expiry: racing threads yield one acceptance. */
  lemma {:induction false} NoReplayBeforeExpiry(cfg: Config, start: int, steps: seq<Step>, i: nat, j: nat)
    requires i < j < |Accepted(cfg, start, steps)|
    requires KeyOf(Accepted(cfg, start, steps)[i].envelope) == KeyOf(Accepted(cfg, start, steps)[j].envelope)
    ensures Accepted(cfg, start, steps)[j].at >= Accepted(cfg, start, steps)[i].envelope.expiresAt
  {
    StepsKeepInv(cfg, State(start, map[], map[], []), steps);
    assert Apart(Accepted(cfg, start, steps), i, j);
  }

  // ----- exactly when a racing thread is refused -----

  /** The reading under which a step holds the lock, if it takes it. */
  ghost function LockReading(s: State, step: Step): Option<int> {
    match step
    case CommitReserve(t) => if At(s, t).Reserving? then Some(At(s, t).now) else None
    case CommitLook(t) => if At(s, t).Looking? then Some(At(s, t).now) else None
    case _ => None
  }

  /** Some step of the run takes the lock with a reading at or after `until`. */
  ghost predicate PurgedBy(cfg: Config, s: State, steps: seq<Step>, until: int)
    decreases |steps|
  {
    steps != [] && (
      || (LockReading(s, steps[0]).Some? && LockReading(s, steps[0]).value >= until)
      || PurgedBy(cfg, Next(cfg, s, steps[0]), steps[1..], until))
  }

  /** No step of the run accepts an envelope under `key`. */
  ghost predicate NotAccepted(cfg: Config, s: State, steps: seq<Step>, key: Key)
    decreases |steps|
  {
    steps != [] ==>
      var next := Next(cfg, s, steps[0]);
      && (|next.accepted| > |s.accepted| ==> KeyOf(next.accepted[|s.accepted|].envelope) != key)
      && NotAccepted(cfg, next, steps[1..], key)
  }

  /** A step that does not accept under a key keeps its entry, unless it holds the lock with a late enough
      reading; then the entry goes. */
  lemma EntryStep(cfg: Config, s: State, step: Step, key: Key)
    requires NotAccepted(cfg, s, [step], key)
    ensures var next := Next(cfg, s, step).entries;
      if key !in s.entries then key !in next
      else if LockReading(s, step).Some? && LockReading(s, step).value >= s.entries[key] then key !in next
      else key in next && next[key] == s.entries[key]
  {
    hide CheckWindow;
    assert [step][0] == step;
  }

  lemma NotAcceptedHead(cfg: Config, s: State, steps: seq<Step>, key: Key)
    requires steps != [] && NotAccepted(cfg, s, steps, key)
    ensures NotAccepted(cfg, s, [steps[0]], key) && NotAccepted(cfg, Next(cfg, s, steps[0]), steps[1..], key)
  {
    hide Next;
    assert [steps[0]][1..] == [];
  }

  lemma {:induction false} AbsentStays(cfg: Config, s: State, steps: seq<Step>, key: Key)
    requires NotAccepted(cfg, s, steps, key) && key !in s.entries
    ensures key !in AfterSteps(cfg, s, steps).entries
    decreases |steps|
  {
    hide Next;
    if steps != [] {
      NotAcceptedHead(cfg, s, steps, key);
      EntryStep(cfg, s, steps[0], key);
      AbsentStays(cfg, Next(cfg, s, steps[0]), steps[1..], key);
    }
  }

  /** In any run that does not accept it again, a key stays reserved exactly until some step holds the lock
      with a reading at or after the time it was reserved until. */
  lemma {:induction false} EntryStands(cfg: Config, s: State, steps: seq<Step>, key: Key)
    requires NotAccepted(cfg, s, steps, key) && key in s.entries
    ensures var after := AfterSteps(cfg, s, steps).entries;
      if PurgedBy(cfg, s, steps, s.entries[key]) then key !in after else key in after && after[key] == s.entries[key]
    decreases |steps|
  {
    hide Next, LockReading;
    if steps != [] {
      NotAcceptedHead(cfg, s, steps, key);
      EntryStep(cfg, s, steps[0], key);
      var next := Next(cfg, s, steps[0]);
      if key in next.entries {
        EntryStands(cfg, next, steps[1..], key);
      } else {
        AbsentStays(cfg, next, steps[1..], key);
      }
    }
  }

  /** After a thread's acceptance and any run that does not accept its key again, the next thread to reserve
      the key is accepted exactly when its own reading, or that of a step which held the lock in between, has
      reached the time the key was reserved until: the first reading of the cache plus the time to live. */
  lemma {:induction false} RacerAcceptedIff(cfg: Config, s: State, t: nat, steps: seq<Step>, u: nat)
    requires At(s, t).Reserving? && |Next(cfg, s, CommitReserve(t)).accepted| > |s.accepted|
    requires NotAccepted(cfg, Next(cfg, s, CommitReserve(t)), steps, KeyOf(At(s, t).envelope))
    requires var r := AfterSteps(cfg, Next(cfg, s, CommitReserve(t)), steps);
      At(r, u).Reserving? && KeyOf(At(r, u).envelope) == KeyOf(At(s, t).envelope)
    ensures var first := At(s, t);
      var s1 := Next(cfg, s, CommitReserve(t));
      var r := AfterSteps(cfg, s1, steps);
      var until := first.now + TimeToLive(first.envelope, first.current);
      var accepted := |Next(cfg, r, CommitReserve(u)).accepted| > |r.accepted|;
      accepted <==> At(r, u).now >= until || PurgedBy(cfg, s1, steps, until)
  {
    hide CheckWindow, AfterSteps, NotAccepted, PurgedBy;
    var first, s1 := At(s, t), Next(cfg, s, CommitReserve(t));
    assert s1.entries[KeyOf(first.envelope)] == first.now + TimeToLive(first.envelope, first.current);
    EntryStands(cfg, s1, steps, KeyOf(first.envelope));
  }
}
