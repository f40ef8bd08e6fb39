/** Diversity-aware neighbour selection: freshest first, at most `maxPerDomain` from any one trust
    domain, at most `target` in all. */
module Eclipse {
  import opened Common

  datatype Candidate = Candidate(iss: string, kid: string, lastSeen: int)

  datatype Rule = Rule(target: nat, maxPerDomain: nat, minDistinct: nat)

  datatype RejectReason = TargetReached | PerDomainCap

  datatype Rejected = Rejected(candidate: Candidate, reason: RejectReason)

  datatype Selection = Selection(
    selected: seq<Candidate>, rejected: seq<Rejected>, diversityShortfall: bool, targetShortfall: bool)

  ghost predicate ValidRule(r: Rule) {
    r.target >= 1 && r.maxPerDomain >= 1 && 1 <= r.minDistinct <= r.target
  }

  // ----- trust domains -----

  const SCHEME := "spiffe://"

  function UpToSlash(s: string): string {
    if s == "" || s[0] == '/' then "" else [s[0]] + UpToSlash(s[1..])
  }

  /** The host part of a SPIFFE id, or empty where there is none. */
  function TrustDomain(iss: string): string {
    if SCHEME <= iss then UpToSlash(iss[|SCHEME|..]) else ""
  }

  function Domain(c: Candidate): string {
    TrustDomain(c.iss)
  }

  // ----- freshness order -----

  predicate StringLess(a: string, b: string) {
    if b == "" then false
    else if a == "" then true
    else if a[0] != b[0] then a[0] < b[0]
    else StringLess(a[1..], b[1..])
  }

  /** `a` strictly precedes `b`: fresher, or as fresh with the smaller issuer. */
  predicate Before(a: Candidate, b: Candidate) {
    a.lastSeen > b.lastSeen || (a.lastSeen == b.lastSeen && StringLess(a.iss, b.iss))
  }

  lemma {:induction false} StringLessTrans(a: string, b: string, c: string)
    ensures !StringLess(b, a) && !StringLess(c, b) ==> !StringLess(c, a)
  {
    if a != "" && b != "" && c != "" {
      StringLessTrans(a[1..], b[1..], c[1..]);
    }
  }

  lemma NotBeforeTrans(a: Candidate, b: Candidate, c: Candidate)
    requires !Before(b, a) && !Before(c, b)
    ensures !Before(c, a)
  {
    StringLessTrans(a.iss, b.iss, c.iss);
  }

  ghost predicate InOrder(s: seq<Candidate>) {
    forall i, j :: 0 <= i < j < |s| ==> !Before(s[j], s[i])
  }

  lemma {:induction false} StringLessAsym(a: string, b: string)
    ensures StringLess(a, b) ==> !StringLess(b, a)
  {
    if a != "" && b != "" {
      StringLessAsym(a[1..], b[1..]);
    }
  }

  /** Put `c` after everything it does not strictly precede. */
  function Insert(s: seq<Candidate>, c: Candidate): (r: seq<Candidate>)
    ensures multiset(r) == multiset(s) + multiset{c}
  {
    if s == [] || !Before(c, s[|s| - 1]) then s + [c]
    else
      assert s == s[..|s| - 1] + [s[|s| - 1]];
      Insert(s[..|s| - 1], c) + [s[|s| - 1]]
  }

  /** The stable sort into freshness order. */
  function Ordered(s: seq<Candidate>): (r: seq<Candidate>)
    ensures multiset(r) == multiset(s)
  {
    if s == [] then []
    else
      assert s == s[..|s| - 1] + [s[|s| - 1]];
      Insert(Ordered(s[..|s| - 1]), s[|s| - 1])
  }

  lemma {:induction false} InsertInOrder(s: seq<Candidate>, c: Candidate)
    requires InOrder(s)
    ensures InOrder(Insert(s, c))
  {
    if s == [] {
    } else if !Before(c, s[|s| - 1]) {
      forall i | 0 <= i < |s| ensures !Before(c, s[i]) {
        if i < |s| - 1 {
          NotBeforeTrans(s[i], s[|s| - 1], c);
        }
      }
    } else {
      var init, last := s[..|s| - 1], s[|s| - 1];
      InsertInOrder(init, c);
      var r := Insert(init, c);
      forall i | 0 <= i < |r| ensures !Before(last, r[i]) {
        assert r[i] in multiset(r);
        if r[i] == c {
          StringLessAsym(c.iss, last.iss);
        } else {
          assert r[i] in multiset(init);
          var j :| 0 <= j < |init| && init[j] == r[i];
          assert s[j] == init[j];
        }
      }
    }
  }

  lemma {:induction false} OrderedInOrder(s: seq<Candidate>)
    ensures InOrder(Ordered(s))
  {
    if s != [] {
      OrderedInOrder(s[..|s| - 1]);
      InsertInOrder(Ordered(s[..|s| - 1]), s[|s| - 1]);
    }
  }

  /** The candidates that tie with `k`, in the order they appear. */
  function Ties(s: seq<Candidate>, k: Candidate): seq<Candidate> {
    if s == [] then []
    else
      var last := s[|s| - 1];
      Ties(s[..|s| - 1], k) + if last.lastSeen == k.lastSeen && last.iss == k.iss then [last] else []
  }

  lemma TiesSnoc(s: seq<Candidate>, c: Candidate, k: Candidate)
    ensures Ties(s + [c], k) == Ties(s, k) + if c.lastSeen == k.lastSeen && c.iss == k.iss then [c] else []
  {
    assert (s + [c])[..|s|] == s;
  }

  lemma {:induction false} NotLessSelf(a: string)
    ensures !StringLess(a, a)
  {
    if a != "" {
      NotLessSelf(a[1..]);
    }
  }

  lemma NoneBeforeItsTie(a: Candidate, b: Candidate)
    ensures Before(a, b) ==> a.lastSeen != b.lastSeen || a.iss != b.iss
  {
    NotLessSelf(a.iss);
  }

  lemma {:induction false} InsertTies(s: seq<Candidate>, c: Candidate, k: Candidate)
    ensures Ties(Insert(s, c), k) == Ties(s + [c], k)
  {
    hide StringLess, Before;
    TiesSnoc(s, c, k);
    if s != [] && Before(c, s[|s| - 1]) {
      var init, last := s[..|s| - 1], s[|s| - 1];
      InsertTies(init, c, k);
      TiesSnoc(Insert(init, c), last, k);
      TiesSnoc(init, c, k);
      NoneBeforeItsTie(c, last);
      var ties := Ties(init, k);
      assert ties + [] == ties;
    }
  }

  /** Candidates that tie keep the order they were given in. */
  lemma {:induction false} OrderedIsStable(s: seq<Candidate>, k: Candidate)
    ensures Ties(Ordered(s), k) == Ties(s, k)
  {
    hide StringLess, Before, Insert;
    if s != [] {
      var init, last := s[..|s| - 1], s[|s| - 1];
      OrderedIsStable(init, k);
      InsertTies(Ordered(init), last, k);
      TiesSnoc(Ordered(init), last, k);
      TiesSnoc(init, last, k);
      assert s == init + [last];
    }
  }

  // ----- the greedy walk -----

  function Count(s: seq<Candidate>, d: string): nat {
    if s == [] then 0 else Count(s[..|s| - 1], d) + if Domain(s[|s| - 1]) == d then 1 else 0
  }

  lemma CountSnoc(s: seq<Candidate>, c: Candidate, d: string)
    ensures Count(s + [c], d) == Count(s, d) + if Domain(c) == d then 1 else 0
  {
    assert (s + [c])[..|s|] == s;
  }

  function Greedy(r: Rule, s: seq<Candidate>): (seq<Candidate>, seq<Rejected>) {
    if s == [] then ([], [])
    else
      var before := Greedy(r, s[..|s| - 1]);
      var c := s[|s| - 1];
      if |before.0| >= r.target then (before.0, before.1 + [Rejected(c, TargetReached)])
      else if Count(before.0, Domain(c)) >= r.maxPerDomain then (before.0, before.1 + [Rejected(c, PerDomainCap)])
      else (before.0 + [c], before.1)
  }

  function NamedDomains(s: seq<Candidate>): set<string> {
    set c | c in s && Domain(c) != "" :: Domain(c)
  }

  method SelectNeighbors(candidates: seq<Candidate>, r: Rule) returns (s: Selection)
    requires ValidRule(r)
    ensures (s.selected, s.rejected) == Greedy(r, Ordered(candidates))
    ensures s.diversityShortfall <==> |NamedDomains(s.selected)| < r.minDistinct
    ensures s.targetShortfall <==> |s.selected| < r.target
  {
    hide StringLess, Before, TrustDomain, Insert;
    var ordered := Ordered(candidates);
    var selected: seq<Candidate> := [];
    var rejected: seq<Rejected> := [];
    var perDomain: map<string, nat> := map[];
    for i := 0 to |ordered|
      invariant (selected, rejected) == Greedy(r, ordered[..i])
      invariant forall d :: Count(selected, d) == if d in perDomain then perDomain[d] else 0
    {
      assert ordered[..i + 1][..i] == ordered[..i];
      var c := ordered[i];
      if |selected| >= r.target {
        rejected := rejected + [Rejected(c, TargetReached)];
        continue;
      }
      var d := Domain(c);
      var held := if d in perDomain then perDomain[d] else 0;
      if held >= r.maxPerDomain {
        rejected := rejected + [Rejected(c, PerDomainCap)];
        continue;
      }
      forall e ensures Count(selected + [c], e) == Count(selected, e) + if d == e then 1 else 0 {
        CountSnoc(selected, c, e);
      }
      selected := selected + [c];
      perDomain := perDomain[d := held + 1];
    }
    assert ordered[..|ordered|] == ordered;
    s := Selection(selected, rejected, |NamedDomains(selected)| < r.minDistinct, |selected| < r.target);
  }

  // ----- the most any choice can have -----

  ghost function Domains(s: seq<Candidate>): set<string> {
    set c | c in s :: Domain(c)
  }

  /** The sum over the domains in `ds` of the smaller of the cap and the domain's count. */
  ghost function SumCapped(cap: nat, s: seq<Candidate>, ds: set<string>): nat
    decreases |ds|
  {
    if ds == {} then 0
    else
      var d :| d in ds;
      Min(cap, Count(s, d)) + SumCapped(cap, s, ds - {d})
  }

  ghost function Capacity(cap: nat, s: seq<Candidate>): nat {
    SumCapped(cap, s, Domains(s))
  }

  lemma {:induction false} SumCappedTake(cap: nat, s: seq<Candidate>, ds: set<string>, d: string)
    requires d in ds
    ensures SumCapped(cap, s, ds) == Min(cap, Count(s, d)) + SumCapped(cap, s, ds - {d})
    decreases |ds|
  {
    var e :| e in ds && SumCapped(cap, s, ds) == Min(cap, Count(s, e)) + SumCapped(cap, s, ds - {e});
    if e != d {
      SumCappedTake(cap, s, ds - {e}, d);
      SumCappedTake(cap, s, ds - {d}, e);
      assert ds - {e} - {d} == ds - {d} - {e};
    }
  }

  lemma {:induction false} SumCappedMono(
    cap: nat, s: seq<Candidate>, ds: set<string>, t: seq<Candidate>, es: set<string>)
    requires ds <= es
    requires forall d :: d in ds ==> Count(s, d) <= Count(t, d)
    ensures SumCapped(cap, s, ds) <= SumCapped(cap, t, es)
    decreases |ds|
  {
    if ds != {} {
      var d :| d in ds;
      SumCappedTake(cap, s, ds, d);
      SumCappedTake(cap, t, es, d);
      SumCappedMono(cap, s, ds - {d}, t, es - {d});
    }
  }

  lemma {:induction false} CountZero(s: seq<Candidate>, d: string)
    ensures Count(s, d) == 0 <==> d !in Domains(s)
  {
    if s != [] {
      var init, last := s[..|s| - 1], s[|s| - 1];
      CountZero(init, d);
      assert s == init + [last];
      assert Domains(s) == Domains(init) + {Domain(last)};
    }
  }

  lemma {:induction false} SumCappedSame(cap: nat, s: seq<Candidate>, t: seq<Candidate>, ds: set<string>)
    requires forall d :: d in ds ==> Count(s, d) == Count(t, d)
    ensures SumCapped(cap, s, ds) == SumCapped(cap, t, ds)
  {
    SumCappedMono(cap, s, ds, t, ds);
    SumCappedMono(cap, t, ds, s, ds);
  }

  /** One more candidate adds one to the capacity while its domain is below the cap, else nothing. */
  lemma CapacitySnoc(cap: nat, s: seq<Candidate>, c: Candidate)
    requires cap >= 1
    ensures Capacity(cap, s + [c]) == Capacity(cap, s) + if Count(s, Domain(c)) < cap then 1 else 0
  {
    var d, t := Domain(c), s + [c];
    assert Domains(t) == Domains(s) + {d};
    SumCappedTake(cap, t, Domains(t), d);
    CountSnoc(s, c, d);
    forall e | e in Domains(s) - {d} ensures Count(s, e) == Count(t, e) {
      CountSnoc(s, c, e);
    }
    SumCappedSame(cap, s, t, Domains(s) - {d});
    assert Domains(t) - {d} == Domains(s) - {d};
    CountZero(s, d);
    if d in Domains(s) {
      SumCappedTake(cap, s, Domains(s), d);
    } else {
      assert Domains(s) - {d} == Domains(s);
    }
  }

  // ----- the greedy walk attains it -----

  lemma GreedyStep(r: Rule, init: seq<Candidate>, c: Candidate)
    ensures var before := Greedy(r, init).0;
      var grows := |before| < r.target && Count(before, Domain(c)) < r.maxPerDomain;
      Greedy(r, init + [c]).0 == if grows then before + [c] else before
  {
    hide Count, Domain;
    assert (init + [c])[..|init|] == init;
  }

  lemma GreedyNone(r: Rule, d: string)
    ensures Greedy(r, []).0 == [] && Count([], d) == 0
  {}

  lemma {:induction false} GreedyCounts(r: Rule, s: seq<Candidate>, d: string)
    ensures |Greedy(r, s).0| <= r.target
    ensures Count(Greedy(r, s).0, d) <= Min(r.maxPerDomain, Count(s, d))
    ensures |Greedy(r, s).0| < r.target ==> Count(Greedy(r, s).0, d) == Min(r.maxPerDomain, Count(s, d))
  {
    hide Greedy, Count, Domain;
    if s == [] {
      GreedyNone(r, d);
    } else {
      var init, c := s[..|s| - 1], s[|s| - 1];
      assert s == init + [c];
      GreedyCounts(r, init, d);
      GreedyStep(r, init, c);
      CountSnoc(Greedy(r, init).0, c, d);
      CountSnoc(init, c, d);
    }
  }

  /** In every prefix of the freshness order the walk picks exactly the smaller of the target and
      what the per-domain caps leave room for. */
  lemma {:induction false} GreedySize(r: Rule, s: seq<Candidate>)
    requires ValidRule(r)
    ensures |Greedy(r, s).0| == Min(r.target, Capacity(r.maxPerDomain, s))
  {
    if s != [] {
      var init, c := s[..|s| - 1], s[|s| - 1];
      GreedySize(r, init);
      GreedyCounts(r, init, Domain(c));
      CapacitySnoc(r.maxPerDomain, init, c);
      assert s == init + [c];
      GreedyStep(r, init, c);
      hide Greedy, Capacity, Count, Domain;
    }
  }

  /** What the walk picked from a prefix is where its whole selection starts. */
  lemma {:induction false} GreedyPrefix(r: Rule, s: seq<Candidate>, k: nat)
    requires k <= |s|
    ensures Greedy(r, s[..k]).0 <= Greedy(r, s).0
  {
    if k == |s| {
      assert s[..k] == s;
    } else {
      GreedyPrefix(r, s[..|s| - 1], k);
      assert s[..|s| - 1][..k] == s[..k];
    }
  }

  /** Every candidate lands exactly once, selected or rejected. */
  lemma {:induction false} GreedyPartitions(r: Rule, s: seq<Candidate>)
    ensures multiset(Greedy(r, s).0) + multiset(Candidates(Greedy(r, s).1)) == multiset(s)
  {
    hide Count, TrustDomain;
    if s != [] {
      var init, c := s[..|s| - 1], s[|s| - 1];
      GreedyPartitions(r, init);
      var (sel, rej) := Greedy(r, init);
      assert multiset(s) == multiset(init) + multiset{c} by {
        assert s == init + [c];
      }
      assert multiset(sel + [c]) == multiset(sel) + multiset{c};
      CandidatesSnoc(rej, Rejected(c, TargetReached));
      CandidatesSnoc(rej, Rejected(c, PerDomainCap));
    }
  }

  lemma CandidatesSnoc(rs: seq<Rejected>, x: Rejected)
    ensures multiset(Candidates(rs + [x])) == multiset(Candidates(rs)) + multiset{x.candidate}
  {
    assert Candidates(rs + [x]) == Candidates(rs) + [x.candidate];
  }

  function Candidates(rs: seq<Rejected>): seq<Candidate> {
    seq(|rs|, i requires 0 <= i < |rs| => rs[i].candidate)
  }

  /** A rejection means what its reason says: the target was met, or the domain had its full share. */
  lemma {:induction false} RejectionsJustified(r: Rule, s: seq<Candidate>, x: Rejected)
    requires x in Greedy(r, s).1
    ensures x.reason == TargetReached ==> |Greedy(r, s).0| == r.target
    ensures x.reason == PerDomainCap ==> Count(Greedy(r, s).0, Domain(x.candidate)) == r.maxPerDomain
  {
    var init, c := s[..|s| - 1], s[|s| - 1];
    GreedyCounts(r, s, Domain(x.candidate));
    GreedyCounts(r, init, Domain(x.candidate));
    if x in Greedy(r, init).1 {
      RejectionsJustified(r, init, x);
      CountSnoc(Greedy(r, init).0, c, Domain(x.candidate));
    }
  }

  // ----- no other choice does better -----

  /** The sub-list of `s` that `mask` picks. */
  function Pick(s: seq<Candidate>, mask: seq<bool>): seq<Candidate>
    requires |mask| == |s|
  {
    if s == [] then []
    else Pick(s[..|s| - 1], mask[..|s| - 1]) + if mask[|s| - 1] then [s[|s| - 1]] else []
  }

  ghost predicate Admissible(r: Rule, t: seq<Candidate>) {
    |t| <= r.target && forall d :: Count(t, d) <= r.maxPerDomain
  }

  lemma {:induction false} PickCounts(s: seq<Candidate>, mask: seq<bool>, d: string)
    requires |mask| == |s|
    ensures Count(Pick(s, mask), d) <= Count(s, d)
  {
    if s != [] {
      var init, c := s[..|s| - 1], s[|s| - 1];
      PickCounts(init, mask[..|s| - 1], d);
      CountSnoc(Pick(init, mask[..|s| - 1]), c, d);
      assert Pick(init, mask[..|s| - 1]) + [] == Pick(init, mask[..|s| - 1]);
    }
  }

  lemma {:induction false} AdmissibleFits(cap: nat, t: seq<Candidate>)
    requires cap >= 1 && forall d :: Count(t, d) <= cap
    ensures Capacity(cap, t) == |t|
  {
    if t != [] {
      var init, c := t[..|t| - 1], t[|t| - 1];
      assert t == init + [c];
      forall d ensures Count(init, d) <= cap && (d == Domain(c) ==> Count(init, d) < cap) {
        CountSnoc(init, c, d);
        assert Count(t, d) <= cap;
      }
      AdmissibleFits(cap, init);
      CapacitySnoc(cap, init, c);
    }
  }

  /** No choice that obeys the rule has more members in the list than the walk picks. */
  lemma NoneLarger(r: Rule, s: seq<Candidate>, mask: seq<bool>)
    requires ValidRule(r) && |mask| == |s| && Admissible(r, Pick(s, mask))
    ensures |Pick(s, mask)| <= |Greedy(r, s).0|
  {
    var t := Pick(s, mask);
    AdmissibleFits(r.maxPerDomain, t);
    GreedySize(r, s);
    forall d ensures Count(t, d) <= Count(s, d) && (d in Domains(t) ==> d in Domains(s)) {
      PickCounts(s, mask, d);
      CountZero(t, d);
      CountZero(s, d);
    }
    SumCappedMono(r.maxPerDomain, t, Domains(t), s, Domains(s));
  }

  lemma AdmissibleInit(r: Rule, t: seq<Candidate>, c: Candidate)
    requires Admissible(r, t + [c])
    ensures Admissible(r, t)
  {
    forall d ensures Count(t, d) <= r.maxPerDomain {
      CountSnoc(t, c, d);
      assert Count(t + [c], d) <= r.maxPerDomain;
    }
  }

  lemma {:induction false} GreedyFromList(r: Rule, s: seq<Candidate>, i: nat) returns (j: nat)
    requires i < |Greedy(r, s).0|
    ensures j < |s| && s[j] == Greedy(r, s).0[i]
  {
    if i < |Greedy(r, s[..|s| - 1]).0| {
      j := GreedyFromList(r, s[..|s| - 1], i);
    } else {
      j := |s| - 1;
    }
  }

  /** Nor is any such choice fresher at any rank: its k-th member never precedes the walk's k-th. */
  lemma {:induction false} NoneFresher(r: Rule, s: seq<Candidate>, mask: seq<bool>, k: nat)
    requires ValidRule(r) && |mask| == |s| && InOrder(s) && Admissible(r, Pick(s, mask))
    requires k < |Pick(s, mask)|
    ensures k < |Greedy(r, s).0| && !Before(Pick(s, mask)[k], Greedy(r, s).0[k])
  {
    NoneLarger(r, s, mask);
    var init, c := s[..|s| - 1], s[|s| - 1];
    var t := Pick(init, mask[..|s| - 1]);
    if k < |t| {
      if mask[|s| - 1] {
        AdmissibleInit(r, t, c);
      } else {
        assert t + [] == t;
      }
      NoneFresher(r, init, mask[..|s| - 1], k);
      GreedyPrefix(r, s, |s| - 1);
    } else {
      var j := GreedyFromList(r, s, k);
      if j == |s| - 1 {
        NotLessSelf(c.iss);
      }
    }
  }
}
