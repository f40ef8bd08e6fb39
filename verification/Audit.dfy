/** The hash-chained audit log: what recording appends, what chain verification accepts, and how the file
    sink finds its last line. */
module Audit {
  import opened Common

  /** The hashed fields of an event. */
  datatype Body = Body(
    timestamp: string, eventType: string, outcome: string, reason: string, messageId: string, sender: string,
    recipient: string, envelopeKid: string, issuerIss: string, issuerKid: string, reasonCode: string,
    artifactVersion: string)

  datatype Event = Event(body: Body, prevHash: string, thisHash: string)

  datatype Error = BadOutcome

  /** SHA-256 in hex and the JCS encoding (section 3.2 of RFC 8785), taken as given functions. */
  datatype Hashing = Hashing(sha: string -> string, canon: Body -> string)

  const HASH_LENGTH := 64

  function Repeated(c: char, n: nat): (s: string)
    ensures |s| == n && forall i :: 0 <= i < n ==> s[i] == c
  {
    if n == 0 then "" else Repeated(c, n - 1) + [c]
  }

  const GENESIS: string := Repeated('0', HASH_LENGTH)

  /** What is assumed of them: hashes have one length, and the encoding is injective. */
  ghost predicate Sound(h: Hashing) {
    && (forall x :: |h.sha(x)| == HASH_LENGTH)
    && (forall a, b :: h.canon(a) == h.canon(b) ==> a == b)
  }

  function Payload(h: Hashing, prev: string, body: Body): string {
    prev + h.canon(body)
  }

  function ThisHash(h: Hashing, prev: string, body: Body): string {
    h.sha(Payload(h, prev, body))
  }

  function BuildEvent(h: Hashing, prev: string, body: Body): Result<Event, Error> {
    if body.outcome !in {"allow", "deny"} then Err(BadOutcome)
    else Ok(Event(body, prev, ThisHash(h, prev, body)))
  }

  /** An event is built exactly for the two outcomes, and then of the body and the hash it is given. */
  lemma {:induction false} BuiltExactly(h: Hashing, prev: string, body: Body)
    ensures var r := BuildEvent(h, prev, body);
      && (r.Ok? <==> body.outcome == "allow" || body.outcome == "deny")
      && (r.Ok? ==> r.value.body == body && r.value.prevHash == prev && r.value.thisHash == h.sha(prev + h.canon(body)))
      && (r.Err? ==> r.error == BadOutcome)
  {}

  ghost predicate OutcomesKnown(events: seq<Event>) {
    forall e :: e in events ==> e.body.outcome == "allow" || e.body.outcome == "deny"
  }

  // ----- chain verification -----

  function PrevOf(events: seq<Event>, i: nat): string
    requires i <= |events|
  {
    if i == 0 then GENESIS else events[i - 1].thisHash
  }

  ghost predicate LinkHolds(h: Hashing, events: seq<Event>, i: nat)
    requires i < |events|
  {
    events[i].prevHash == PrevOf(events, i) && events[i].thisHash == ThisHash(h, events[i].prevHash, events[i].body)
  }

  ghost predicate Accepted(h: Hashing, events: seq<Event>) {
    forall i :: 0 <= i < |events| ==> LinkHolds(h, events, i)
  }

  datatype Break = PrevMismatch(index: nat) | HashMismatch(index: nat)

  /** Accepts exactly the logs all of whose links hold, and otherwise reports the first that does not. */
  method VerifyChain(h: Hashing, events: seq<Event>) returns (broken: Option<Break>)
    ensures broken.None? <==> Accepted(h, events)
    ensures broken.Some? ==> var i := broken.value.index;
      i < |events| && !LinkHolds(h, events, i) && Accepted(h, events[..i])
    ensures broken.Some? ==> var i := broken.value.index;
      broken.value.PrevMismatch? <==> events[i].prevHash != PrevOf(events, i)
  {
    var expected := GENESIS;
    for index := 0 to |events|
      invariant expected == PrevOf(events, index)
      invariant forall i :: 0 <= i < index ==> LinkHolds(h, events, i)
    {
      var event := events[index];
      PrefixLinks(h, events, index);
      if event.prevHash != expected {
        assert !LinkHolds(h, events, index);
        return Some(PrevMismatch(index));
      }
      var recomputed := ThisHash(h, event.prevHash, event.body);
      if event.thisHash != recomputed {
        assert !LinkHolds(h, events, index);
        return Some(HashMismatch(index));
      }
      expected := event.thisHash;
    }
    broken := None;
  }

  lemma PrefixLinks(h: Hashing, events: seq<Event>, n: nat)
    requires n <= |events| && forall i :: 0 <= i < n ==> LinkHolds(h, events, i)
    ensures Accepted(h, events[..n])
  {
    forall i | 0 <= i < n ensures LinkHolds(h, events[..n], i) {
      assert LinkHolds(h, events, i);
    }
  }

  /** Verification alone does not see a log cut short: every prefix of an accepted log is accepted. */
  lemma PrefixIsAccepted(h: Hashing, events: seq<Event>, n: nat)
    requires Accepted(h, events) && n <= |events|
    ensures Accepted(h, events[..n])
  {
    PrefixLinks(h, events, n);
  }

  lemma AppendIsAccepted(h: Hashing, events: seq<Event>, body: Body)
    requires Accepted(h, events)
    ensures var prev := PrevOf(events, |events|);
      Accepted(h, events + [Event(body, prev, ThisHash(h, prev, body))])
  {
    var prev := PrevOf(events, |events|);
    var all := events + [Event(body, prev, ThisHash(h, prev, body))];
    forall i | 0 <= i < |all| ensures LinkHolds(h, all, i) {
      if i < |events| {
        assert LinkHolds(h, events, i);
      }
    }
  }

  /** A hash met twice in two logs over different inputs. */
  ghost predicate Collide(h: Hashing, a: seq<Event>, b: seq<Event>) {
    exists i, j :: 0 <= i < |a| && 0 <= j < |b| && CollideAt(h, a[i], b[j])
  }

  ghost predicate CollideAt(h: Hashing, x: Event, y: Event) {
    x.thisHash == y.thisHash && Payload(h, x.prevHash, x.body) != Payload(h, y.prevHash, y.body)
  }

  ghost predicate HitsGenesis(events: seq<Event>) {
    exists i :: 0 <= i < |events| && events[i].thisHash == GENESIS
  }

  lemma PrevLength(h: Hashing, events: seq<Event>)
    requires Sound(h) && Accepted(h, events) && events != []
    ensures |events[|events| - 1].prevHash| == HASH_LENGTH
  {
    var last := |events| - 1;
    assert LinkHolds(h, events, last);
    if last > 0 {
      assert LinkHolds(h, events, last - 1);
    }
  }

  lemma CollideExtends(h: Hashing, a: seq<Event>, x: Event, b: seq<Event>, y: Event)
    requires Collide(h, a, b) || HitsGenesis(a) || HitsGenesis(b)
    ensures Collide(h, a + [x], b + [y]) || HitsGenesis(a + [x]) || HitsGenesis(b + [y])
  {
    if Collide(h, a, b) {
      var i, j :| 0 <= i < |a| && 0 <= j < |b| && CollideAt(h, a[i], b[j]);
      assert CollideAt(h, (a + [x])[i], (b + [y])[j]);
    } else if HitsGenesis(a) {
      var i :| 0 <= i < |a| && a[i].thisHash == GENESIS;
      assert (a + [x])[i].thisHash == GENESIS;
    } else {
      var i :| 0 <= i < |b| && b[i].thisHash == GENESIS;
      assert (b + [y])[i].thisHash == GENESIS;
    }
  }

  lemma LastEventsAgree(h: Hashing, a: seq<Event>, b: seq<Event>)
    requires Sound(h) && Accepted(h, a) && Accepted(h, b) && a != [] && b != []
    requires PrevOf(a, |a|) == PrevOf(b, |b|) && !Collide(h, a, b)
    ensures a[|a| - 1] == b[|b| - 1]
  {
    var x, y := a[|a| - 1], b[|b| - 1];
    assert LinkHolds(h, a, |a| - 1) && LinkHolds(h, b, |b| - 1);
    assert !CollideAt(h, x, y);
    PrevLength(h, a);
    PrevLength(h, b);
    var p, q := Payload(h, x.prevHash, x.body), Payload(h, y.prevHash, y.body);
    assert p[..HASH_LENGTH] == x.prevHash && q[..HASH_LENGTH] == y.prevHash;
    assert p[HASH_LENGTH..] == h.canon(x.body) && q[HASH_LENGTH..] == h.canon(y.body);
  }

  /** The tail hash commits to the whole log: two accepted logs with the same one are equal, unless the logs
      themselves exhibit two inputs with one hash, or an input that hashes to the genesis value. */
  lemma {:induction false} TailHashCommits(h: Hashing, a: seq<Event>, b: seq<Event>)
    requires Sound(h) && Accepted(h, a) && Accepted(h, b)
    requires PrevOf(a, |a|) == PrevOf(b, |b|)
    ensures a == b || Collide(h, a, b) || HitsGenesis(a) || HitsGenesis(b)
  {
    hide Sound, Repeated, ThisHash, Payload;
    if a == [] || b == [] {
      if a != [] {
        assert a[|a| - 1].thisHash == GENESIS;
      } else if b != [] {
        assert b[|b| - 1].thisHash == GENESIS;
      }
    } else if !Collide(h, a, b) {
      LastEventsAgree(h, a, b);
      var x, y := a[|a| - 1], b[|b| - 1];
      var a', b' := a[..|a| - 1], b[..|b| - 1];
      PrefixIsAccepted(h, a, |a| - 1);
      PrefixIsAccepted(h, b, |b| - 1);
      assert LinkHolds(h, a, |a| - 1) && LinkHolds(h, b, |b| - 1);
      TailHashCommits(h, a', b');
      assert a == a' + [x] && b == b' + [y];
      if a' != b' {
        CollideExtends(h, a', x, b', y);
      }
    }
  }

  // ----- which alterations of a log verification detects -----

  /** What is left of a log when the events not marked are deleted. */
  ghost function Kept(full: seq<Event>, keep: seq<bool>): seq<Event>
    requires |keep| == |full|
  {
    if full == [] then []
    else Kept(full[..|full| - 1], keep[..|full| - 1]) + if keep[|full| - 1] then [full[|full| - 1]] else []
  }

  lemma {:induction false} KeptOrigin(full: seq<Event>, keep: seq<bool>, i: nat) returns (j: nat)
    requires |keep| == |full| && i < |Kept(full, keep)|
    ensures j < |full| && full[j] == Kept(full, keep)[i]
  {
    var n := |full| - 1;
    if i < |Kept(full[..n], keep[..n])| {
      j := KeptOrigin(full[..n], keep[..n], i);
    } else {
      j := n;
    }
  }

  ghost predicate Within(a: seq<Event>, full: seq<Event>) {
    forall i :: 0 <= i < |a| ==> a[i] in full
  }

  lemma PrefixWithin(full: seq<Event>, n: nat)
    requires n <= |full|
    ensures Within(full[..n], full)
  {}

  lemma KeptWithin(full: seq<Event>, keep: seq<bool>)
    requires |keep| == |full|
    ensures Within(Kept(full, keep), full)
  {
    forall i | 0 <= i < |Kept(full, keep)| ensures Kept(full, keep)[i] in full {
      var j := KeptOrigin(full, keep, i);
    }
  }

  /** What two logs exhibit, a log that holds all their events exhibits too. */
  lemma CollideInside(h: Hashing, a: seq<Event>, b: seq<Event>, full: seq<Event>)
    requires Within(a, full) && Within(b, full)
    ensures Collide(h, a, b) ==> Collide(h, full, full)
    ensures HitsGenesis(a) || HitsGenesis(b) ==> HitsGenesis(full)
  {
    if Collide(h, a, b) {
      var i, j :| 0 <= i < |a| && 0 <= j < |b| && CollideAt(h, a[i], b[j]);
      assert a[i] in full && b[j] in full;
    }
    if HitsGenesis(a) {
      var i :| 0 <= i < |a| && a[i].thisHash == GENESIS;
      assert a[i] in full;
    }
    if HitsGenesis(b) {
      var i :| 0 <= i < |b| && b[i].thisHash == GENESIS;
      assert b[i] in full;
    }
  }

  /** An accepted log made of another's events is all of it up to the event it ends with. */
  lemma EndsAsPrefix(h: Hashing, full: seq<Event>, kept: seq<Event>, j: nat)
    requires Sound(h) && Accepted(h, full) && Accepted(h, kept) && Within(kept, full)
    requires kept != [] && j < |full| && kept[|kept| - 1] == full[j]
    ensures kept == full[..j + 1] || Collide(h, full, full) || HitsGenesis(full)
  {
    hide Sound, Accepted, Collide, HitsGenesis, Within;
    PrefixIsAccepted(h, full, j + 1);
    PrefixWithin(full, j + 1);
    TailHashCommits(h, kept, full[..j + 1]);
    CollideInside(h, kept, full[..j + 1], full);
  }

  /** Deleting events from an accepted log is detected exactly when what is left is not a prefix of it,
      unless the log itself exhibits two inputs with one hash or an input that hashes to genesis. */
  lemma {:induction false} DeletionAcceptedIff(h: Hashing, full: seq<Event>, keep: seq<bool>)
    requires Sound(h) && Accepted(h, full) && |keep| == |full|
    ensures (Accepted(h, Kept(full, keep)) <==> Kept(full, keep) <= full) || Collide(h, full, full) || HitsGenesis(full)
  {
    hide Sound, Accepted, Collide, HitsGenesis, Within;
    var kept := Kept(full, keep);
    if kept <= full {
      PrefixIsAccepted(h, full, |kept|);
      assert full[..|kept|] == kept;
    } else if Accepted(h, kept) {
      var j := KeptOrigin(full, keep, |kept| - 1);
      KeptWithin(full, keep);
      EndsAsPrefix(h, full, kept, j);
    }
  }

  /** `extra` carries the chain of `full` on. */
  ghost predicate Follows(h: Hashing, full: seq<Event>, extra: seq<Event>) {
    forall i :: |full| <= i < |full + extra| ==> LinkHolds(h, full + extra, i)
  }

  lemma AppendAcceptedIff(h: Hashing, full: seq<Event>, extra: seq<Event>)
    requires Accepted(h, full)
    ensures Accepted(h, full + extra) <==> Follows(h, full, extra)
  {
    var all := full + extra;
    if Follows(h, full, extra) {
      forall i | 0 <= i < |all| ensures LinkHolds(h, all, i) {
        if i < |full| {
          assert LinkHolds(h, full, i);
        }
      }
    }
  }

  /** Inserting events anywhere into an accepted log is detected exactly when they do not all come after it, or
      do not carry its chain on; unless the result exhibits a collision or a genesis hit. */
  lemma {:induction false} InsertionAcceptedIff(h: Hashing, full: seq<Event>, other: seq<Event>, keep: seq<bool>)
    requires Sound(h) && Accepted(h, full) && |keep| == |other| && Kept(other, keep) == full
    ensures
      || (Accepted(h, other) <==> full <= other && Follows(h, full, other[|full|..]))
      || Collide(h, other, other) || HitsGenesis(other)
  {
    hide Sound, Accepted, Collide, HitsGenesis, Follows;
    if Accepted(h, other) {
      DeletionAcceptedIff(h, other, keep);
    }
    if full <= other {
      assert full + other[|full|..] == other;
      AppendAcceptedIff(h, full, other[|full|..]);
    }
  }

  /** Where two accepted logs hold one event, they agree on all that came before it. */
  lemma SharedEventSharesPast(h: Hashing, full: seq<Event>, other: seq<Event>, i: nat, j: nat)
    requires Sound(h) && Accepted(h, full) && Accepted(h, other)
    requires i < |other| && j < |full| && other[i] == full[j]
    ensures other[..i + 1] == full[..j + 1] || Collide(h, other, full) || HitsGenesis(other) || HitsGenesis(full)
  {
    hide Sound, Accepted, Collide, HitsGenesis;
    PrefixIsAccepted(h, other, i + 1);
    PrefixIsAccepted(h, full, j + 1);
    TailHashCommits(h, other[..i + 1], full[..j + 1]);
    CollideWithin(h, other[..i + 1], full[..j + 1], other, full);
  }

  lemma PastsDiffer(full: seq<Event>, other: seq<Event>, k: nat, i: nat, j: nat)
    requires k <= i < |other| && j < |full| && (k < |full| ==> other[k] != full[k])
    ensures other[..i + 1] != full[..j + 1]
  {
    if i == j {
      assert other[..i + 1][k] == other[k] && full[..j + 1][k] == full[k];
    }
  }

  lemma CollideWithin(h: Hashing, a: seq<Event>, b: seq<Event>, c: seq<Event>, d: seq<Event>)
    requires a <= c && b <= d
    ensures Collide(h, a, b) ==> Collide(h, c, d)
    ensures HitsGenesis(a) ==> HitsGenesis(c)
    ensures HitsGenesis(b) ==> HitsGenesis(d)
  {
    if Collide(h, a, b) {
      var i, j :| 0 <= i < |a| && 0 <= j < |b| && CollideAt(h, a[i], b[j]);
      assert CollideAt(h, c[i], d[j]);
    }
    if HitsGenesis(a) {
      var i :| 0 <= i < |a| && a[i].thisHash == GENESIS;
      assert c[i].thisHash == GENESIS;
    }
    if HitsGenesis(b) {
      var i :| 0 <= i < |b| && b[i].thisHash == GENESIS;
      assert d[i].thisHash == GENESIS;
    }
  }

  /** How many events two logs have in common at their start. */
  function SharedStart(a: seq<Event>, b: seq<Event>): (k: nat)
    ensures k <= |a| && k <= |b| && a[..k] == b[..k]
    ensures k < |a| && k < |b| ==> a[k] != b[k]
  {
    if a == [] || b == [] || a[0] != b[0] then 0
    else
      var rest := SharedStart(a[1..], b[1..]);
      assert a[..rest + 1] == [a[0]] + a[1..][..rest] && b[..rest + 1] == [b[0]] + b[1..][..rest];
      rest + 1
  }

  /** The log that hashing `bodies` one after another onto `log` makes. */
  ghost function CarriedOn(h: Hashing, log: seq<Event>, bodies: seq<Body>): seq<Event> {
    if bodies == [] then log
    else
      var before := CarriedOn(h, log, bodies[..|bodies| - 1]);
      var prev, body := PrevOf(before, |before|), bodies[|bodies| - 1];
      before + [Event(body, prev, ThisHash(h, prev, body))]
  }

  lemma {:induction false} CarriedOnIsAccepted(h: Hashing, log: seq<Event>, bodies: seq<Body>)
    requires Accepted(h, log)
    ensures Accepted(h, CarriedOn(h, log, bodies)) && log <= CarriedOn(h, log, bodies)
  {
    hide Accepted, ThisHash;
    if bodies != [] {
      CarriedOnIsAccepted(h, log, bodies[..|bodies| - 1]);
      AppendIsAccepted(h, CarriedOn(h, log, bodies[..|bodies| - 1]), bodies[|bodies| - 1]);
    }
  }

  function Bodies(events: seq<Event>): (r: seq<Body>)
    ensures |r| == |events| && forall i :: 0 <= i < |events| ==> r[i] == events[i].body
  {
    seq(|events|, i requires 0 <= i < |events| => events[i].body)
  }

  lemma {:induction false} AcceptedIsCarriedOn(h: Hashing, log: seq<Event>, k: nat)
    requires Accepted(h, log) && k <= |log|
    ensures log == CarriedOn(h, log[..k], Bodies(log[k..]))
    decreases |log|
  {
    hide Accepted, ThisHash, Repeated;
    var n := |log| - 1;
    if k == |log| {
      assert log[..k] == log;
    } else {
      PrefixIsAccepted(h, log, n);
      AcceptedIsCarriedOn(h, log[..n], k);
      assert log[..n][..k] == log[..k];
      assert Bodies(log[k..])[..n - k] == Bodies(log[..n][k..]);
      LastLink(h, log);
      assert log == log[..n] + [log[n]];
    }
  }

  lemma LastLink(h: Hashing, log: seq<Event>)
    requires Accepted(h, log) && log != []
    ensures var n := |log| - 1;
      var prev := PrevOf(log[..n], n);
      log[n] == Event(log[n].body, prev, ThisHash(h, prev, log[n].body))
  {
    assert LinkHolds(h, log, |log| - 1);
  }

  /** Of all logs whatever, verification accepts exactly those that keep some start of the original, here as
      much as the two have in common, and carry it on with events hashed afresh; and none of those events is in
      the original, unless the logs exhibit a collision or a genesis hit. */
  lemma {:induction false} AlterationAcceptedIff(h: Hashing, full: seq<Event>, other: seq<Event>)
    requires Sound(h) && Accepted(h, full)
    ensures var k := SharedStart(full, other);
      Accepted(h, other) <==> other == CarriedOn(h, full[..k], Bodies(other[k..]))
    ensures var k := SharedStart(full, other);
      Accepted(h, other) ==>
        || (forall i :: k <= i < |other| ==> other[i] !in full)
        || Collide(h, other, full) || HitsGenesis(other) || HitsGenesis(full)
  {
    hide Sound, Accepted, Collide, HitsGenesis, CarriedOn;
    var k := SharedStart(full, other);
    PrefixIsAccepted(h, full, k);
    CarriedOnIsAccepted(h, full[..k], Bodies(other[k..]));
    if Accepted(h, other) {
      AcceptedIsCarriedOn(h, other, k);
      forall i | k <= i < |other| && other[i] in full
        ensures Collide(h, other, full) || HitsGenesis(other) || HitsGenesis(full)
      {
        var j :| 0 <= j < |full| && full[j] == other[i];
        SharedEventSharesPast(h, full, other, i, j);
        PastsDiffer(full, other, k, i, j);
      }
    }
  }

  /** Rewriting events in place is detected exactly when the events from the first rewritten one on do not carry
      the chain on; and where they do, every one of them has been rewritten, with the same exception. */
  lemma {:induction false} RewriteAcceptedIff(h: Hashing, full: seq<Event>, other: seq<Event>, first: nat)
    requires Sound(h) && Accepted(h, full) && |other| == |full|
    requires first < |full| && full[..first] == other[..first] && full[first] != other[first]
    ensures Accepted(h, other) <==> Follows(h, full[..first], other[first..])
    ensures Accepted(h, other) ==>
      || (forall i :: first <= i < |other| ==> other[i] != full[i])
      || Collide(h, other, full) || HitsGenesis(other) || HitsGenesis(full)
  {
    hide Sound, Accepted, Collide, HitsGenesis, Follows;
    PrefixIsAccepted(h, full, first);
    assert full[..first] + other[first..] == other;
    AppendAcceptedIff(h, full[..first], other[first..]);
    if Accepted(h, other) {
      forall i | first <= i < |other| && other[i] == full[i]
        ensures Collide(h, other, full) || HitsGenesis(other) || HitsGenesis(full)
      {
        SharedEventSharesPast(h, full, other, i, i);
        PastsDiffer(full, other, first, i, i);
      }
    }
  }

  /** So a log cut anywhere and carried on with any bodies, hashed afresh, is accepted. */
  lemma CutAndCarriedOnIsAccepted(h: Hashing, full: seq<Event>, cut: nat, bodies: seq<Body>)
    requires Accepted(h, full) && cut <= |full|
    ensures Accepted(h, CarriedOn(h, full[..cut], bodies))
  {
    PrefixIsAccepted(h, full, cut);
    CarriedOnIsAccepted(h, full[..cut], bodies);
  }

  /** Whoever keeps the last hash elsewhere detects every alteration that leaves it in place. */
  lemma RememberedTailDetects(h: Hashing, full: seq<Event>, other: seq<Event>)
    requires Sound(h) && Accepted(h, full) && PrevOf(other, |other|) == PrevOf(full, |full|)
    ensures
      || (Accepted(h, other) <==> other == full)
      || Collide(h, other, full) || HitsGenesis(other) || HitsGenesis(full)
  {
    hide Sound, Accepted, Collide, HitsGenesis;
    if Accepted(h, other) {
      TailHashCommits(h, other, full);
    }
  }

  // ----- the in-memory sink -----

  class InMemoryAuditSink {
    const hashing: Hashing
    var events: seq<Event>

    ghost predicate Valid()
      reads this
    {
      Accepted(hashing, events) && OutcomesKnown(events)
    }

    constructor (hashing: Hashing)
      ensures Valid() && this.hashing == hashing && events == []
    {
      this.hashing := hashing;
      events := [];
    }

    method TailHash() returns (r: string)
      ensures r == PrevOf(events, |events|)
    {
      r := if events == [] then GENESIS else events[|events| - 1].thisHash;
    }

    /** Every run of records keeps a log that verification accepts. */
    method Record(body: Body) returns (r: Result<Event, Error>)
      requires Valid()
      modifies this
      ensures Valid()
      ensures r == BuildEvent(hashing, PrevOf(old(events), |old(events)|), body)
      ensures events == if r.Ok? then old(events) + [r.value] else old(events)
    {
      var prev := TailHash();
      r := BuildEvent(hashing, prev, body);
      if r.Ok? {
        AppendIsAccepted(hashing, events, body);
        events := events + [r.value];
      }
    }
  }

  // ----- the last line of a file -----

  function StripEnd(s: string): string {
    if s != "" && s[|s| - 1] == '\n' then StripEnd(s[..|s| - 1]) else s
  }

  /** What follows the last newline. */
  function AfterLast(s: string): string {
    if s == "" || s[|s| - 1] == '\n' then "" else AfterLast(s[..|s| - 1]) + [s[|s| - 1]]
  }

  function LastLine(file: string): string {
    AfterLast(StripEnd(file))
  }

  lemma {:induction false} AfterLastWhole(s: string)
    requires '\n' !in s
    ensures AfterLast(s) == s
  {
    if s != "" {
      AfterLastWhole(s[..|s| - 1]);
    }
  }

  lemma {:induction false} AfterLastSkips(before: string, s: string)
    requires '\n' in s || before == "" || before[|before| - 1] == '\n'
    ensures AfterLast(before + s) == AfterLast(s)
  {
    var all := before + s;
    if s == "" {
      assert all == before;
    } else if s[|s| - 1] != '\n' {
      var init := s[..|s| - 1];
      assert s == init + [s[|s| - 1]];
      assert all[..|all| - 1] == before + init;
      AfterLastSkips(before, init);
    }
  }

  lemma {:induction false} StripEndSkips(before: string, s: string)
    requires StripEnd(s) != ""
    ensures StripEnd(before + s) == before + StripEnd(s)
  {
    var all := before + s;
    if s[|s| - 1] == '\n' {
      StripEndSkips(before, s[..|s| - 1]);
      assert all[..|all| - 1] == before + s[..|s| - 1];
    }
  }

  lemma {:induction false} StripEndDrops(s: string, newlines: string)
    requires forall i :: 0 <= i < |newlines| ==> newlines[i] == '\n'
    requires s == "" || s[|s| - 1] != '\n'
    ensures StripEnd(s + newlines) == s
  {
    var all := s + newlines;
    if newlines == "" {
      assert all == s;
    } else {
      StripEndDrops(s, newlines[..|newlines| - 1]);
      assert all[..|all| - 1] == s + newlines[..|newlines| - 1];
    }
  }

  /** The last line is the last run of characters between newlines, whatever newlines end the file. */
  lemma LastLineFound(before: string, line: string, newlines: string)
    requires before == "" || before[|before| - 1] == '\n'
    requires line != "" && '\n' !in line
    requires forall i :: 0 <= i < |newlines| ==> newlines[i] == '\n'
    ensures LastLine(before + line + newlines) == line
  {
    assert (before + line)[|before + line| - 1] == line[|line| - 1];
    StripEndDrops(before + line, newlines);
    AfterLastSkips(before, line);
    AfterLastWhole(line);
  }

  /** Reading blocks from the end until one more line break is in sight finds the same last line as reading
      the whole file, for every file and every block size. */
  method TailLine(file: string, block: nat) returns (line: string)
    requires block > 0
    ensures line == LastLine(file)
  {
    var size := |file|;
    var data := "";
    while size > 0
      invariant 0 <= size <= |file|
      invariant data == file[size..]
    {
      var read := if block < size then block else size;
      size := size - read;
      data := file[size..size + read] + data;
      if '\n' in StripEnd(data) {
        StripEndSkips(file[..size], data);
        AfterLastSkips(file[..size], StripEnd(data));
        break;
      }
    }
    assert file[..size] + data == file;
    line := AfterLast(StripEnd(data));
  }

  // ----- the file sink -----

  /** The JSON line of an event, and the hash read back out of a line. */
  datatype Format = Format(encode: Event -> string, hashIn: string -> string)

  ghost predicate Faithful(f: Format) {
    forall e :: f.encode(e) != "" && '\n' !in f.encode(e) && f.hashIn(f.encode(e)) == e.thisHash
  }

  function FileOf(f: Format, log: seq<Event>): string {
    if log == [] then "" else FileOf(f, log[..|log| - 1]) + f.encode(log[|log| - 1]) + "\n"
  }

  lemma FileEndsLine(f: Format, log: seq<Event>)
    ensures FileOf(f, log) == "" || FileOf(f, log)[|FileOf(f, log)| - 1] == '\n'
  {}

  class JsonlAuditSink {
    const hashing: Hashing
    const format: Format
    var file: string
    ghost var log: seq<Event>

    ghost predicate Valid()
      reads this
    {
      Faithful(format) && file == FileOf(format, log) && Accepted(hashing, log) && OutcomesKnown(log)
    }

    constructor (hashing: Hashing, format: Format)
      requires Faithful(format)
      ensures Valid() && this.hashing == hashing && this.format == format && log == []
    {
      this.hashing := hashing;
      this.format := format;
      file := "";
      log := [];
    }

    /** The hash in the file's last line is the last event's. */
    method TailHash(block: nat) returns (r: string)
      requires Valid() && block > 0
      ensures r == PrevOf(log, |log|)
    {
      if |file| == 0 {
        FileIsEmptyOnlyAtFirst(format, log);
        return GENESIS;
      }
      var line := TailLine(file, block);
      ghost var last := log[|log| - 1];
      FileEndsLine(format, log[..|log| - 1]);
      LastLineFound(FileOf(format, log[..|log| - 1]), format.encode(last), "\n");
      if line == "" {
        return GENESIS;
      }
      r := format.hashIn(line);
    }

    method Record(body: Body, block: nat) returns (r: Result<Event, Error>)
      requires Valid() && block > 0
      modifies this
      ensures Valid()
      ensures r == BuildEvent(hashing, PrevOf(old(log), |old(log)|), body)
      ensures log == if r.Ok? then old(log) + [r.value] else old(log)
    {
      var prev := TailHash(block);
      r := BuildEvent(hashing, prev, body);
      if r.Ok? {
        AppendIsAccepted(hashing, log, body);
        file := file + (format.encode(r.value) + "\n");
        log := log + [r.value];
        assert log[..|log| - 1] == old(log);
      }
    }
  }

  lemma FileIsEmptyOnlyAtFirst(f: Format, log: seq<Event>)
    requires FileOf(f, log) == ""
    ensures log == []
  {}
}
