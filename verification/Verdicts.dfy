/** Which envelopes are accepted, told by the clock, the window and what is reserved; that a forged one is denied and
    changes nothing; and that whatever racing threads accept was checked. */
module Verdicts {
  import opened Common
  import opened Replay

  // ----- one envelope -----

  predicate InLife(e: Envelope, current: int, cfg: Config) {
    e.issuedAt - cfg.maxSkew <= current <= e.expiresAt + cfg.maxSkew
  }

  /** The life is neither empty nor longer than allowed. */
  predicate Reasonable(e: Envelope, cfg: Config) {
    0 < e.expiresAt - e.issuedAt <= cfg.maxTtl
  }

  predicate Reserved(entries: Entries, e: Envelope, now: int) {
    (e.sender, e.nonce) in entries && entries[(e.sender, e.nonce)] > now
  }

  /** Each answer, and exactly when it is given. */
  lemma {:induction false} AnsweredExactly(
    entries: Entries, e: Envelope, genuine: bool, current: int, now: int, cfg: Config)
    requires cfg.maxSkew >= 0
    ensures var denial := Freshness(entries, e, genuine, current, now, cfg).1;
      && (denial == Some(IssuedInFuture) <==> current < e.issuedAt - cfg.maxSkew)
      && (denial == Some(Expired) <==> e.issuedAt - cfg.maxSkew <= current && e.expiresAt + cfg.maxSkew < current)
      && (denial == Some(InvalidWindow) <==> InLife(e, current, cfg) && e.expiresAt <= e.issuedAt)
      && (denial == Some(TtlExceeded) <==>
            InLife(e, current, cfg) && e.issuedAt < e.expiresAt && e.expiresAt - e.issuedAt > cfg.maxTtl)
      && (denial == Some(NotGenuine) <==> InLife(e, current, cfg) && Reasonable(e, cfg) && !genuine)
      && (denial == Some(ReplayDetected) <==>
            InLife(e, current, cfg) && Reasonable(e, cfg) && genuine && Reserved(entries, e, now))
      && (denial == None <==>
            InLife(e, current, cfg) && Reasonable(e, cfg) && genuine && !Reserved(entries, e, now))
  {}

  /** What is reserved afterwards: as before, when the envelope fails a check before the cache's; otherwise what was
      still reserved, and with it, if it is accepted, its own key for the rest of its life. */
  lemma {:induction false} ReservedExactly(
    entries: Entries, e: Envelope, genuine: bool, current: int, now: int, cfg: Config, k: Key)
    ensures var (after, denial) := Freshness(entries, e, genuine, current, now, cfg);
      var own := denial == None && k == (e.sender, e.nonce);
      if !InLife(e, current, cfg) || !Reasonable(e, cfg) || !genuine then denial.Some? && after == entries
      else
        && (k in after <==> own || (k in entries && entries[k] > now))
        && (k in after ==> after[k] == if own then now + Max(0, e.expiresAt - current) else entries[k])
  {}

  /** A forged envelope is denied, whenever it comes, and reserves nothing. */
  lemma {:induction false} ForgedIsDenied(entries: Entries, e: Envelope, current: int, now: int, cfg: Config)
    ensures Freshness(entries, e, false, current, now, cfg).1.Some?
    ensures Freshness(entries, e, false, current, now, cfg).0 == entries
  {}

  function GenuineOnly(arrivals: seq<Arrival>): seq<Arrival> {
    if arrivals == [] then []
    else
      var last := arrivals[|arrivals| - 1];
      GenuineOnly(arrivals[..|arrivals| - 1]) + if last.genuine then [last] else []
  }

  lemma {:induction false} ServeSnoc(entries: Entries, arrivals: seq<Arrival>, a: Arrival, cfg: Config)
    ensures Serve(entries, arrivals + [a], cfg)
      == Freshness(Serve(entries, arrivals, cfg), a.envelope, a.genuine, a.current, a.now, cfg).0
  {
    assert (arrivals + [a])[..|arrivals|] == arrivals;
  }

  /** Whatever forged traffic is mixed in, the cache is left as the genuine envelopes alone leave it, so each of
      them gets the answer it would have had without any. */
  lemma {:induction false} ForgeriesLeaveNoTrace(entries: Entries, arrivals: seq<Arrival>, cfg: Config)
    ensures Serve(entries, arrivals, cfg) == Serve(entries, GenuineOnly(arrivals), cfg)
  {
    hide Freshness;
    if arrivals != [] {
      var init, last := arrivals[..|arrivals| - 1], arrivals[|arrivals| - 1];
      ForgeriesLeaveNoTrace(entries, init, cfg);
      if last.genuine {
        ServeSnoc(entries, GenuineOnly(init), last, cfg);
      } else {
        assert GenuineOnly(init) + [] == GenuineOnly(init);
        ForgedIsDenied(Serve(entries, init, cfg), last.envelope, last.current, last.now, cfg);
      }
    }
  }

  // ----- threads -----

  /** A thread that nobody runs beside does what the verifier does to one envelope after another: `span` passes
      between its two readings of the clock. */
  lemma {:induction false} AloneIsFreshness(cfg: Config, s: State, t: nat, e: Envelope, genuine: bool, span: nat)
    requires At(s, t) == Idle
    ensures var r := AfterSteps(cfg, s, [Begin(t, e, genuine), Wait(span), ReadClock(t), CommitReserve(t)]);
      var (entries, denial) := Freshness(s.entries, e, genuine, s.clock, s.clock + span, cfg);
      && r.entries == entries && At(r, t) == Idle && r.clock == s.clock + span
      && r.accepted == if denial == None then s.accepted + [Acceptance(e, r.clock)] else s.accepted
  {
    hide CheckWindow, Reserve, TimeToLive;
    var steps := [Begin(t, e, genuine), Wait(span), ReadClock(t), CommitReserve(t)];
    var s1 := Next(cfg, s, steps[0]);
    var s2 := Next(cfg, s1, steps[1]);
    var s3 := Next(cfg, s2, steps[2]);
    assert steps[1..] == [Wait(span), ReadClock(t), CommitReserve(t)];
    assert steps[1..][1..] == [ReadClock(t), CommitReserve(t)];
    assert steps[1..][1..][1..] == [CommitReserve(t)];
    AfterOne(cfg, s3, CommitReserve(t));
    assert AfterSteps(cfg, s1, steps[1..]) == AfterSteps(cfg, s2, steps[1..][1..]);
    assert AfterSteps(cfg, s2, steps[1..][1..]) == AfterSteps(cfg, s3, [CommitReserve(t)]);
  }

  lemma AfterOne(cfg: Config, s: State, step: Step)
    ensures AfterSteps(cfg, s, [step]) == Next(cfg, s, step)
  {
    assert [step][1..] == [];
  }

  lemma {:induction false} AfterSnoc(cfg: Config, s: State, steps: seq<Step>, step: Step)
    ensures AfterSteps(cfg, s, steps + [step]) == Next(cfg, AfterSteps(cfg, s, steps), step)
    decreases |steps|
  {
    hide Next;
    if steps == [] {
      assert steps + [step] == [step];
      AfterOne(cfg, s, step);
    } else {
      assert (steps + [step])[1..] == steps[1..] + [step];
      AfterSnoc(cfg, Next(cfg, s, steps[0]), steps[1..], step);
    }
  }

  /** At step `k` some thread began on the envelope, genuine, with the clock at `current` and its life as it must
      be. */
  ghost predicate BegunAt(cfg: Config, s: State, steps: seq<Step>, k: nat, e: Envelope, current: int)
    requires k < |steps|
  {
    && steps[k].Begin? && steps[k].envelope == e && steps[k].genuine
    && AfterSteps(cfg, s, steps[..k]).clock == current
    && InLife(e, current, cfg) && Reasonable(e, cfg)
  }

  ghost predicate Begun(cfg: Config, s: State, steps: seq<Step>, e: Envelope, current: int) {
    exists k :: 0 <= k < |steps| && BegunAt(cfg, s, steps, k, e, current)
  }

  lemma BegunOn(cfg: Config, s: State, steps: seq<Step>, step: Step, e: Envelope, current: int)
    requires Begun(cfg, s, steps, e, current)
    ensures Begun(cfg, s, steps + [step], e, current)
  {
    hide AfterSteps, InLife, Reasonable;
    var k :| 0 <= k < |steps| && BegunAt(cfg, s, steps, k, e, current);
    assert (steps + [step])[..k] == steps[..k] && (steps + [step])[k] == steps[k];
    assert BegunAt(cfg, s, steps + [step], k, e, current);
  }

  lemma JustBegun(cfg: Config, s: State, steps: seq<Step>, step: Step)
    requires step.Begin? && step.genuine && CheckWindow(step.envelope, AfterSteps(cfg, s, steps).clock, cfg).None?
    ensures Begun(cfg, s, steps + [step], step.envelope, AfterSteps(cfg, s, steps).clock)
  {
    hide AfterSteps;
    assert (steps + [step])[..|steps|] == steps;
    assert BegunAt(cfg, s, steps + [step], |steps|, step.envelope, AfterSteps(cfg, s, steps).clock);
  }

  /** What a thread is at work on has been begun. */
  ghost predicate ThreadBegun(cfg: Config, s: State, steps: seq<Step>, thread: Thread) {
    match thread
    case Checked(e, current) => Begun(cfg, s, steps, e, current)
    case Reserving(e, current, _) => Begun(cfg, s, steps, e, current)
    case _ => true
  }

  ghost predicate AcceptanceBegun(cfg: Config, s: State, steps: seq<Step>, a: Acceptance) {
    exists current :: current <= a.at && Begun(cfg, s, steps, a.envelope, current)
  }

  lemma ThreadBegunOn(cfg: Config, s: State, steps: seq<Step>, step: Step, thread: Thread)
    requires ThreadBegun(cfg, s, steps, thread)
    ensures ThreadBegun(cfg, s, steps + [step], thread)
  {
    hide Begun;
    if thread.Checked? || thread.Reserving? {
      BegunOn(cfg, s, steps, step, thread.envelope, thread.current);
    }
  }

  /** Where a thread is after a step: where it was, or one step further on the same envelope, or newly begun. */
  lemma ThreadMoves(cfg: Config, s: State, step: Step, t: nat)
    ensures var was, after := At(s, t), At(Next(cfg, s, step), t);
      || after == was || after.Idle? || after.Looking?
      || (after.Reserving? && was.Checked? && after.envelope == was.envelope && after.current == was.current)
      || (after.Checked? && step.Begin? && step.genuine && CheckWindow(step.envelope, s.clock, cfg).None?
          && after == Checked(step.envelope, s.clock))
  {
    hide CheckWindow, Reserve, Purged;
  }

  lemma {:induction false} ThreadsBegun(cfg: Config, s: State, steps: seq<Step>, t: nat)
    requires s.threads == map[]
    ensures ThreadBegun(cfg, s, steps, At(AfterSteps(cfg, s, steps), t))
    decreases |steps|
  {
    hide Next, Begun, CheckWindow;
    if steps != [] {
      var init, step := steps[..|steps| - 1], steps[|steps| - 1];
      assert steps == init + [step];
      AfterSnoc(cfg, s, init, step);
      ThreadsBegun(cfg, s, init, t);
      var before := AfterSteps(cfg, s, init);
      ThreadMoves(cfg, before, step, t);
      ThreadBegunOn(cfg, s, init, step, At(before, t));
      if step.Begin? && step.genuine && CheckWindow(step.envelope, before.clock, cfg).None? {
        JustBegun(cfg, s, init, step);
      }
    }
  }

  lemma WhatIsAccepted(cfg: Config, s: State, step: Step)
    requires Inv(s)
    ensures var next := Next(cfg, s, step).accepted;
      || next == s.accepted
      || (step.CommitReserve? && At(s, step.t).Reserving? && At(s, step.t).current <= s.clock
          && next == s.accepted + [Acceptance(At(s, step.t).envelope, s.clock)])
  {
    hide CheckWindow, Reserve, Purged, Guarded, Apart;
  }

  /** In every interleaving, each acceptance is of an envelope that some thread had begun on earlier: genuine, at a
      reading of the clock within its life, and with a life neither empty nor too long. */
  lemma {:induction false} AcceptedWasChecked(cfg: Config, start: int, steps: seq<Step>, i: nat)
    requires i < |Accepted(cfg, start, steps)|
    ensures AcceptanceBegun(cfg, State(start, map[], map[], []), steps, Accepted(cfg, start, steps)[i])
    decreases |steps|
  {
    hide Next, Begun, Inv;
    var s := State(start, map[], map[], []);
    FreshInv(start);
    if steps != [] {
      var init, step := steps[..|steps| - 1], steps[|steps| - 1];
      assert steps == init + [step];
      AfterSnoc(cfg, s, init, step);
      StepsKeepInv(cfg, s, init);
      var before := AfterSteps(cfg, s, init);
      WhatIsAccepted(cfg, before, step);
      if i < |before.accepted| {
        AcceptedWasChecked(cfg, start, init, i);
        var current :| current <= before.accepted[i].at && Begun(cfg, s, init, before.accepted[i].envelope, current);
        BegunOn(cfg, s, init, step, before.accepted[i].envelope, current);
      } else {
        ThreadsBegun(cfg, s, init, step.t);
        BegunOn(cfg, s, init, step, At(before, step.t).envelope, At(before, step.t).current);
      }
    }
  }

  lemma FreshInv(start: int)
    ensures Inv(State(start, map[], map[], []))
  {}
}
