/** What neighbour selection comes to on the fields of the candidates: who is fresher, which issuer is smaller,
    which domain an issuer is in, and who is taken or turned away and why. */
module Neighbors {
  import opened Common
  import opened Eclipse

  // ----- issuers -----

  /** At the first position where they differ `a` has the smaller code point, or ends there. */
  ghost predicate Ascends(a: string, b: string) {
    exists k: nat :: AscendsAt(a, b, k)
  }

  ghost predicate AscendsAt(a: string, b: string, k: nat) {
    k <= |a| && k < |b| && a[..k] == b[..k] && (k < |a| ==> a[k] as int < b[k] as int)
  }

  lemma {:induction false} StringLessMeans(a: string, b: string)
    ensures StringLess(a, b) <==> Ascends(a, b)
  {
    if a != "" && b != "" {
      StringLessMeans(a[1..], b[1..]);
      if Ascends(a[1..], b[1..]) && a[0] == b[0] {
        var k: nat :| AscendsAt(a[1..], b[1..], k);
        assert a[..k + 1] == [a[0]] + a[1..][..k] && b[..k + 1] == [b[0]] + b[1..][..k];
        assert AscendsAt(a, b, k + 1);
      }
      if Ascends(a, b) {
        var k: nat :| AscendsAt(a, b, k);
        if k > 0 {
          assert a[..k][0] == b[..k][0];
          assert a[1..][..k - 1] == a[..k][1..] && b[1..][..k - 1] == b[..k][1..];
          assert AscendsAt(a[1..], b[1..], k - 1);
        }
      }
      if a[0] as int < b[0] as int {
        assert AscendsAt(a, b, 0);
      }
    } else if b != "" {
      assert AscendsAt(a, b, 0);
    }
  }

  lemma {:induction false} StringLessTotal(a: string, b: string)
    ensures a == b || StringLess(a, b) || StringLess(b, a)
  {
    if a != "" && b != "" {
      StringLessTotal(a[1..], b[1..]);
      assert a == [a[0]] + a[1..] && b == [b[0]] + b[1..];
    }
  }

  // ----- freshest first -----

  /** Candidates come freshest first, and those seen at the same time by ascending issuer. */
  lemma {:induction false} FreshestFirst(s: seq<Candidate>, i: nat, j: nat)
    requires i < j < |Ordered(s)|
    ensures var a, b := Ordered(s)[i], Ordered(s)[j];
      a.lastSeen >= b.lastSeen && (a.lastSeen == b.lastSeen ==> a.iss == b.iss || Ascends(a.iss, b.iss))
  {
    hide Ordered, Ascends;
    OrderedInOrder(s);
    var a, b := Ordered(s)[i], Ordered(s)[j];
    StringLessTotal(a.iss, b.iss);
    StringLessMeans(a.iss, b.iss);
  }

  /** Rank by rank, no choice the rule admits was seen later than what is selected. */
  lemma {:induction false} NoneSeenLater(r: Rule, candidates: seq<Candidate>, mask: seq<bool>, k: nat)
    requires ValidRule(r) && |mask| == |Ordered(candidates)| && Admissible(r, Pick(Ordered(candidates), mask))
    requires k < |Pick(Ordered(candidates), mask)|
    ensures k < |Greedy(r, Ordered(candidates)).0|
    ensures Pick(Ordered(candidates), mask)[k].lastSeen <= Greedy(r, Ordered(candidates)).0[k].lastSeen
  {
    hide Ordered, Greedy, Pick, Admissible, InOrder;
    OrderedInOrder(candidates);
    NoneFresher(r, Ordered(candidates), mask, k);
  }

  // ----- who is taken -----

  /** The candidate after `before` is taken: fewer than the target could be taken of those, and fewer than the cap
      of them are of its domain. */
  predicate Taken(r: Rule, before: seq<Candidate>, c: Candidate, capacity: nat) {
    capacity < r.target && Count(before, Domain(c)) < r.maxPerDomain
  }

  /** The i-th candidate in order is taken exactly when fewer than the target could be taken of those before it and
      fewer than the cap of those are of its domain; where it is not, the reason is the first of these that fails. */
  lemma {:induction false} FateExactly(r: Rule, s: seq<Candidate>, i: nat)
    requires ValidRule(r) && i < |s|
    ensures var (taken, turned) := Greedy(r, s[..i]);
      var (takenNext, turnedNext) := Greedy(r, s[..i + 1]);
      var capacity := Capacity(r.maxPerDomain, s[..i]);
      if Taken(r, s[..i], s[i], capacity) then takenNext == taken + [s[i]] && turnedNext == turned
      else
        && takenNext == taken
        && turnedNext == turned + [Rejected(s[i], if capacity >= r.target then TargetReached else PerDomainCap)]
  {
    hide Capacity, Count, Domain;
    GreedySize(r, s[..i]);
    GreedyCounts(r, s[..i], Domain(s[i]));
    assert s[..i + 1][..i] == s[..i];
  }

  ghost function TakenMask(r: Rule, s: seq<Candidate>): (mask: seq<bool>)
    ensures |mask| == |s|
  {
    seq(|s|, i requires 0 <= i < |s| => Taken(r, s[..i], s[i], Capacity(r.maxPerDomain, s[..i])))
  }

  /** So the selection is the sub-list of those taken, in order. */
  lemma {:induction false} SelectedExactly(r: Rule, s: seq<Candidate>)
    requires ValidRule(r)
    ensures Greedy(r, s).0 == Pick(s, TakenMask(r, s))
  {
    hide Capacity, Taken;
    if s != [] {
      var init, c := s[..|s| - 1], s[|s| - 1];
      SelectedExactly(r, init);
      FateExactly(r, s, |s| - 1);
      assert s[..|s|] == s;
      var mask := TakenMask(r, s);
      assert forall i :: 0 <= i < |init| ==> init[..i] == s[..i];
      assert mask[..|s| - 1] == TakenMask(r, init);
      assert Pick(init, mask[..|s| - 1]) + [] == Pick(init, mask[..|s| - 1]);
    }
  }

  // ----- trust domains -----

  lemma {:induction false} UpToSlashSplits(s: string)
    ensures UpToSlash(s) <= s && '/' !in UpToSlash(s)
    ensures |UpToSlash(s)| < |s| ==> s[|UpToSlash(s)|] == '/'
  {
    if s != "" && s[0] != '/' {
      UpToSlashSplits(s[1..]);
    }
  }

  /** What may follow the host of a SPIFFE id. */
  predicate PathOrNothing(rest: string) {
    rest == "" || rest[0] == '/'
  }

  /** An issuer is in the domain `host` exactly when it is a SPIFFE id with that host, whatever its path. */
  lemma {:induction false} DomainIsHost(iss: string, host: string)
    requires host != ""
    ensures TrustDomain(iss) == host <==>
      '/' !in host && exists rest :: PathOrNothing(rest) && iss == "spiffe://" + host + rest
  {
    if SCHEME <= iss {
      var tail := iss[|SCHEME|..];
      UpToSlashSplits(tail);
      var rest := tail[|UpToSlash(tail)|..];
      assert iss == SCHEME + tail && tail == UpToSlash(tail) + rest;
      assert iss == SCHEME + UpToSlash(tail) + rest;
      assert PathOrNothing(rest);
    }
    if '/' !in host {
      if rest :| PathOrNothing(rest) && iss == "spiffe://" + host + rest {
        assert iss[|SCHEME|..] == host + rest;
        UpToSlashOf(host, rest);
      }
    }
  }

  lemma {:induction false} UpToSlashOf(host: string, rest: string)
    requires '/' !in host && PathOrNothing(rest)
    ensures UpToSlash(host + rest) == host
  {
    if host == "" {
      assert host + rest == rest;
    } else {
      assert host[0] in host;
      UpToSlashOf(host[1..], rest);
      assert (host + rest)[1..] == host[1..] + rest;
    }
  }

  /** The domains that count towards diversity are those of the selected issuers that have one. */
  lemma {:induction false} NamedDomainsMean(s: seq<Candidate>, host: string)
    ensures host in NamedDomains(s) <==> host != "" && exists i :: 0 <= i < |s| && TrustDomain(s[i].iss) == host
  {
    hide TrustDomain;
    if host in NamedDomains(s) {
      var c :| c in s && Domain(c) == host;
      var i :| 0 <= i < |s| && s[i] == c;
    }
    if i :| 0 <= i < |s| && TrustDomain(s[i].iss) == host && host != "" {
      assert s[i] in s && Domain(s[i]) == host;
    }
  }
}
