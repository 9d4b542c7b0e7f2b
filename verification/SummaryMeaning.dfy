/** What the figures of a summary say about the results, result by result. */
module SummaryMeaning {
  import opened Collections
  import opened Dns
  import opened Summary

  /** Counting is the number of places where the predicate holds. */
  lemma {:induction false} CountIsSize<T>(s: seq<T>, p: T -> bool, places: set<nat>)
    requires forall i: nat :: i in places <==> i < |s| && p(s[i])
    ensures Count(s, p) == |places|
  {
    if s == [] {
      assert places == {};
    } else {
      var n := |s| - 1;
      CountIsSize(s[..n], p, places - {n});
      CountSnoc(s, n, p);
      assert s[..n + 1] == s;
    }
  }

  function Places(results: seq<ResolverResult>, statuses: set<Status>): set<nat> {
    set i: nat | i < |results| && results[i].status in statuses
  }

  /** The places of the OK results counted under `key`. */
  function PlacesOf(results: seq<ResolverResult>, key: string): set<nat> {
    set i: nat | i < |results| && results[i].status == OK && AnswersKey(results[i].answers) == key
  }

  /** Each figure counts the results with its statuses. */
  lemma FiguresCountStatuses(results: seq<ResolverResult>, s: CheckSummary)
    requires Summarizes(results, s)
    ensures s.total == |results|
    ensures s.responded == |Places(results, {OK, NXDomain})|
    ensures s.nxdomain == |Places(results, {NXDomain})|
    ensures s.timeouts == |Places(results, {Timeout})|
    ensures s.errors == |Places(results, {ServFail, Refused, Status.Error})|
  {
    hide *;
    FiguresAreCounts(results, s);
    StatusesTold();
    StatusCount(results, IsResponder, {OK, NXDomain});
    StatusCount(results, IsNXDomain, {NXDomain});
    StatusCount(results, IsTimeout, {Timeout});
    StatusCount(results, IsFailure, {ServFail, Refused, Status.Error});
  }

  lemma StatusesTold()
    ensures forall r :: IsResponder(r) <==> r.status in {OK, NXDomain}
    ensures forall r :: IsNXDomain(r) <==> r.status in {NXDomain}
    ensures forall r :: IsTimeout(r) <==> r.status in {Timeout}
    ensures forall r :: IsFailure(r) <==> r.status in {ServFail, Refused, Status.Error}
  {
  }

  lemma FiguresAreCounts(results: seq<ResolverResult>, s: CheckSummary)
    requires Summarizes(results, s)
    ensures s.total == |results|
    ensures s.responded == Count(results, IsResponder) && s.nxdomain == Count(results, IsNXDomain)
    ensures s.timeouts == Count(results, IsTimeout) && s.errors == Count(results, IsFailure)
  {
    hide Count;
  }

  lemma StatusCount(results: seq<ResolverResult>, p: ResolverResult -> bool, statuses: set<Status>)
    requires forall r :: p(r) <==> r.status in statuses
    ensures Count(results, p) == |Places(results, statuses)|
  {
    CountIsSize(results, p, Places(results, statuses));
  }

  lemma VotesArePlaces(results: seq<ResolverResult>, key: string)
    ensures Votes(results, key) == |PlacesOf(results, key)|
    ensures key in Keys(results) <==> PlacesOf(results, key) != {}
  {
    hide AnswersKey;
    CountIsSize(results, WithKey(key), PlacesOf(results, key));
    VotesPositive(results, key);
    hide Keys, Count;
    assert PlacesOf(results, key) != {} <==> |PlacesOf(results, key)| > 0;
  }

  /** The consensus lists the keys of the OK results, each with the number of results counted under it. */
  lemma ConsensusCountsAnswers(results: seq<ResolverResult>, s: CheckSummary)
    requires Summarizes(results, s)
    ensures forall key :: key in s.consensus <==> PlacesOf(results, key) != {}
    ensures forall key | key in s.consensus :: s.consensus[key] == |PlacesOf(results, key)|
    ensures s.uniqueAnswerSets == |s.consensus|
  {
    hide AnswersKey, Votes, Keys, PlacesOf, Count, DivergentTTLs, Plurality;
    forall key ensures Votes(results, key) == |PlacesOf(results, key)| && (key in Keys(results) <==> PlacesOf(results, key) != {}) {
      VotesArePlaces(results, key);
    }
    assert |s.consensus.Keys| == |s.consensus|;
  }

  /** The answer was sent by a resolver whose answers are counted under another key than `k`. */
  predicate Diverges(r: ResolverResult, k: string, ttl: TTL) {
    r.status == OK && AnswersKey(r.answers) != k && exists a :: a in r.answers && a.ttl == ttl
  }

  /** There is a key that no other outnumbers; the convergence is its share of the responders in per cent,
      rounded down, and the estimate the largest TTL sent with another key, 0 if there is none. */
  lemma FiguresFollowMajority(results: seq<ResolverResult>, s: CheckSummary) returns (k: string)
    requires Summarizes(results, s) && s.responded > 0
    ensures forall key :: |PlacesOf(results, key)| <= |PlacesOf(results, k)|
    ensures s.convergedPct * s.responded <= 100 * |PlacesOf(results, k)| < (s.convergedPct + 1) * s.responded
    ensures s.eta.Some?
    ensures forall r, ttl | r in results && Diverges(r, k, ttl) :: ttl <= s.eta.value
    ensures s.eta.value == 0 || exists r :: r in results && Diverges(r, k, s.eta.value)
  {
    hide *;
    k := TakenForMajority(results, s);
    VotesAreMost(results, k);
    VotesArePlaces(results, k);
    LongestIsAttained(results, k, s.eta.value);
  }

  lemma TakenForMajority(results: seq<ResolverResult>, s: CheckSummary) returns (k: string)
    requires Summarizes(results, s) && s.responded > 0
    ensures Plurality(results, k) && s.convergedPct == Percent(Votes(results, k), s.responded)
    ensures s.eta.Some? && IsLongest(DivergentTTLs(results, k), s.eta.value)
  {
    k :| SummarizesWith(results, s, k);
  }

  lemma LongestIsAttained(results: seq<ResolverResult>, k: string, t: TTL)
    requires IsLongest(DivergentTTLs(results, k), t)
    ensures forall r, ttl | r in results && Diverges(r, k, ttl) :: ttl <= t
    ensures t == 0 || exists r :: r in results && Diverges(r, k, t)
  {
    hide AnswersKey;
    forall r, ttl | r in results && Diverges(r, k, ttl) ensures ttl in DivergentTTLs(results, k) {
      DivergentMeans(results, k, ttl);
    }
    DivergentMeans(results, k, t);
    hide Diverges, DivergentTTLs;
  }

  lemma VotesAreMost(results: seq<ResolverResult>, k: string)
    requires Plurality(results, k)
    ensures forall key :: |PlacesOf(results, key)| <= |PlacesOf(results, k)|
  {
    hide AnswersKey, Votes, PlacesOf;
    forall key ensures |PlacesOf(results, key)| <= |PlacesOf(results, k)| {
      VotesArePlaces(results, key);
      VotesArePlaces(results, k);
    }
  }

  lemma DivergentMeans(results: seq<ResolverResult>, k: string, ttl: TTL)
    ensures ttl in DivergentTTLs(results, k) <==> exists r :: r in results && Diverges(r, k, ttl)
  {
    hide AnswersKey;
    UnionMembers(results, TTLsOff(k), ttl);
    hide Union;
    forall r ensures ttl in TTLsOff(k)(r) <==> Diverges(r, k, ttl) {
    }
  }
}
