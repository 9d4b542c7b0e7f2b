/** What a summary promises about the results it was computed from, whatever order they arrived in
    and whatever order the vote map was visited in. */
module SummaryLaws {
  import opened Collections
  import opened Dns
  import opened Summary

  /** The sum of the values of a map. */
  ghost function Total(m: map<string, nat>): nat
    decreases |m|
  {
    if m == map[] then 0 else
      var k :| k in m;
      assert |m - {k}| < |m| by { MapShrinks(m, k); }
      m[k] + Total(m - {k})
  }

  lemma MapShrinks(m: map<string, nat>, k: string)
    requires k in m
    ensures |m - {k}| == |m| - 1
  {
    assert (m - {k}).Keys == m.Keys - {k};
    assert |m.Keys| == |m| && |(m - {k}).Keys| == |m - {k}|;
  }

  /** Any key can be taken out first. */
  lemma {:induction false} TotalRemove(m: map<string, nat>, k: string)
    requires k in m
    ensures Total(m) == m[k] + Total(m - {k})
    decreases |m|
  {
    var first :| k in m && first in m && Total(m) == m[first] + Total(m - {first});
    if first != k {
      MapShrinks(m, first);
      TotalRemove(m - {first}, k);
      MapShrinks(m, k);
      TotalRemove(m - {k}, first);
      assert m - {first} - {k} == m - {k} - {first};
    }
  }

  lemma TotalUpdate(m: map<string, nat>, k: string, v: nat)
    ensures Total(m[k := v]) == (if k in m then Total(m) - m[k] else Total(m)) + v
  {
    TotalRemove(m[k := v], k);
    if k in m {
      TotalRemove(m, k);
      assert m[k := v] - {k} == m - {k};
    } else {
      assert m[k := v] - {k} == m;
    }
  }

  ghost function VoteMap(results: seq<ResolverResult>): map<string, nat> {
    map k | k in Keys(results) :: Votes(results, k)
  }

  /** Every OK result casts one vote. */
  lemma {:induction false} VotesAddUp(results: seq<ResolverResult>)
    ensures Total(VoteMap(results)) == Count(results, IsOK)
  {
    if results == [] {
      assert VoteMap(results) == map[];
    } else {
      VotesAddUp(results[1..]);
      assert results == [results[0]] + results[1..];
      VoteTotalCons(results[0], results[1..]);
    }
  }

  lemma VoteTotalCons(r: ResolverResult, rest: seq<ResolverResult>)
    ensures Total(VoteMap([r] + rest)) == Total(VoteMap(rest)) + if IsOK(r) then 1 else 0
  {
    hide Votes, VoteMap, Total, AnswersKey;
    var key := AnswersKey(r.answers);
    VoteMapCons(r, rest, key);
    TotalUpdate(VoteMap(rest), key, Votes(rest, key) + 1);
  }

  lemma VoteMapCons(r: ResolverResult, rest: seq<ResolverResult>, key: string)
    requires key == AnswersKey(r.answers)
    ensures IsOK(r) ==> VoteMap([r] + rest) == VoteMap(rest)[key := Votes(rest, key) + 1]
    ensures !IsOK(r) ==> VoteMap([r] + rest) == VoteMap(rest)
    ensures Votes(rest, key) == (if key in VoteMap(rest) then VoteMap(rest)[key] else 0)
  {
    KeysCons(r, rest);
    VotesPositive(rest, key);
    hide AnswersKey, Votes, Keys;
  }

  lemma KeysCons(r: ResolverResult, rest: seq<ResolverResult>)
    ensures Keys([r] + rest) == Keys(rest) + if IsOK(r) then {AnswersKey(r.answers)} else {}
    ensures forall k :: Votes([r] + rest, k) == Votes(rest, k) + if HasKey(r, k) then 1 else 0
  {
    assert forall q :: q in [r] + rest <==> q == r || q in rest;
    forall k ensures Votes([r] + rest, k) == Votes(rest, k) + if HasKey(r, k) then 1 else 0 {
      assert ([r] + rest)[1..] == rest;
    }
  }

  /** Nothing is lost and nothing is counted twice. */
  lemma Accounting(results: seq<ResolverResult>, s: CheckSummary)
    requires Summarizes(results, s)
    ensures s.responded + s.timeouts + s.errors == s.total
    ensures Total(s.consensus) + s.nxdomain == s.responded
    ensures s.uniqueAnswerSets == |s.consensus|
  {
    StatusesPartition(results);
    VotesAddUp(results);
    assert s.consensus == VoteMap(results);
    assert |s.consensus.Keys| == |s.consensus|;
  }

  lemma TotalIsLength(results: seq<ResolverResult>, s: CheckSummary)
    requires Summarizes(results, s)
    ensures s.total == |results|
  {
  }

  lemma {:induction false} StatusesPartition(results: seq<ResolverResult>)
    ensures Count(results, IsOK) + Count(results, IsNXDomain) == Count(results, IsResponder)
    ensures Count(results, IsResponder) + Count(results, IsTimeout) + Count(results, IsFailure) == |results|
  {
    if results != [] { StatusesPartition(results[1..]); }
  }

  /** Somebody responded, and every responder returned the answer set named `k`. */
  ghost predicate AgreeOn(results: seq<ResolverResult>, k: string) {
    && (exists r :: r in results && IsResponder(r))
    && forall r | r in results && IsResponder(r) :: HasKey(r, k)
  }

  lemma AgreementIsFullVote(results: seq<ResolverResult>, k: string)
    ensures Votes(results, k) <= Count(results, IsResponder)
    ensures Count(results, IsResponder) > 0 && Votes(results, k) == Count(results, IsResponder) <==> AgreeOn(results, k)
  {
    CountMonotone(results, WithKey(k), IsResponder);
    CountZero(results, IsResponder);
  }

  /** Convergence is a percentage, and 100 means exactly that all responders agree. */
  lemma ConvergenceIsAgreement(results: seq<ResolverResult>, s: CheckSummary)
    requires Summarizes(results, s)
    ensures s.convergedPct <= 100
    ensures s.convergedPct == 100 <==> exists k :: AgreeOn(results, k)
    ensures s.convergedPct == 100 ==> s.uniqueAnswerSets == 1 && s.nxdomain == 0 && s.eta == Some(0)
  {
    hide AnswersKey;
    var k :| SummarizesWith(results, s, k);
    MajorityConverges(results, s, k);
    forall other | AgreeOn(results, other) ensures AgreeOn(results, k) {
      AgreementIsFullVote(results, other);
      VotesPositive(results, other);
      AgreementIsFullVote(results, k);
      assert Votes(results, other) <= Votes(results, k);
    }
    if AgreeOn(results, k) { AgreementIsTotal(results, k); }
  }

  lemma AgreementIsTotal(results: seq<ResolverResult>, k: string)
    requires AgreeOn(results, k)
    ensures Keys(results) == {k} && Count(results, IsNXDomain) == 0 && DivergentTTLs(results, k) == {}
  {
    hide AnswersKey;
    CountZero(results, IsNXDomain);
    UnionWithin(results, TTLsOff(k), {});
    hide Count, Union;
  }

  lemma MajorityConverges(results: seq<ResolverResult>, s: CheckSummary, k: string)
    requires SummarizesWith(results, s, k)
    ensures s.convergedPct <= 100
    ensures s.convergedPct == 100 <==> AgreeOn(results, k)
  {
    AgreementIsFullVote(results, k);
    if s.responded > 0 { PercentOfPart(Votes(results, k), s.responded); }
    hide AgreeOn, Votes, Keys;
  }

  /** When the estimate is zero although the responders do not agree: every diverging answer has
      TTL 0, yet somebody said the name does not exist or serves another answer set. */
  lemma ZeroEtaWithoutConvergence(results: seq<ResolverResult>, s: CheckSummary, k: string)
    requires SummarizesWith(results, s, k)
    ensures s.eta == Some(0) && s.convergedPct < 100 <==>
            && DivergentTTLs(results, k) <= {0}
            && exists r :: r in results && IsResponder(r) && !HasKey(r, k)
  {
    hide AnswersKey, DivergentTTLs, Votes;
    MajorityConverges(results, s, k);
    CountZero(results, IsResponder);
  }

  /** Such results exist, so an estimate of zero does not mean fully propagated. */
  lemma ZeroEtaExample(resolver: Resolver) returns (results: seq<ResolverResult>, s: CheckSummary)
    ensures Summarizes(results, s) && s.eta == Some(0) && s.convergedPct == 50
  {
    var here := ResolverResult(resolver, OK, [Answer("x", "A", 300, "a")]);
    var gone := ResolverResult(resolver, NXDomain, []);
    results := [here, gone];
    var k := AnswersKey(here.answers);
    s := CheckSummary(2, 2, 1, 0, 0, 1, map[k := 1], 50, Some(0));
    CountPair(here, gone, WithKey(k));
    CountPair(here, gone, IsResponder);
    CountPair(here, gone, IsNXDomain);
    CountPair(here, gone, IsTimeout);
    CountPair(here, gone, IsFailure);
    assert Keys(results) == {k};
    assert |{k}| == 1;
    UnionPair(here, gone, TTLsOff(k));
    assert Percent(1, 2) == 50;
    assert SummarizesWith(results, s, k);
    assert Summarizes(results, s);
  }

  /** Every result list has a summary, with any of the most frequent answer sets for the majority. */
  lemma SummaryFor(results: seq<ResolverResult>, k: string) returns (s: CheckSummary)
    requires Plurality(results, k)
    ensures SummarizesWith(results, s, k)
  {
    hide AnswersKey, Count, Union, Plurality, Votes;
    var longest := Longest(DivergentTTLs(results, k));
    var responded := Count(results, IsResponder);
    s := CheckSummary(
      |results|, responded, Count(results, IsNXDomain), Count(results, IsTimeout), Count(results, IsFailure),
      |Keys(results)|, VoteMap(results),
      if responded == 0 then 0 else Percent(Votes(results, k), responded), if responded == 0 then None else Some(longest));
  }

  lemma SummaryExists(results: seq<ResolverResult>)
    ensures exists s :: Summarizes(results, s)
  {
    hide AnswersKey, Votes, SummarizesWith;
    var k := MostVoted(results, Keys(results));
    var s := SummaryFor(results, k);
    assert Summarizes(results, s);
  }

  lemma {:induction false} MostVoted(results: seq<ResolverResult>, keys: set<string>) returns (k: string)
    ensures if keys == {} then k == "" else k in keys
    ensures forall other | other in keys :: Votes(results, other) <= Votes(results, k)
    decreases keys
  {
    k := "";
    if keys != {} {
      var first :| first in keys;
      var best := MostVoted(results, keys - {first});
      k := if keys == {first} || Votes(results, best) < Votes(results, first) then first else best;
      assert keys == {first} + (keys - {first});
    }
  }

  lemma {:induction false} Longest(ttls: set<TTL>) returns (t: TTL)
    ensures IsLongest(ttls, t)
    decreases ttls
  {
    t := 0;
    if ttls != {} {
      var first :| first in ttls;
      var rest := Longest(ttls - {first});
      t := if rest < first then first else rest;
      assert ttls == {first} + (ttls - {first});
    }
  }

  // --- Order of arrival ----------------------------------------------------------------------

  /** A summary of a result list is a summary of every rearrangement of it. */
  lemma SummaryIgnoresOrder(a: seq<ResolverResult>, b: seq<ResolverResult>, s: CheckSummary, k: string)
    requires multiset(a) == multiset(b) && SummarizesWith(a, s, k)
    ensures SummarizesWith(b, s, k)
  {
    PermutationMembers(a, b);
    CountPermutation(a, b, IsResponder);
    CountPermutation(a, b, IsNXDomain);
    CountPermutation(a, b, IsTimeout);
    CountPermutation(a, b, IsFailure);
    assert Keys(a) == Keys(b);
    UnionPermutation(a, b, TTLsOff(k));
    forall other ensures Votes(a, other) == Votes(b, other) {
      CountPermutation(a, b, WithKey(other));
    }
  }

  ghost predicate UniquePlurality(results: seq<ResolverResult>) {
    forall j, k | Plurality(results, j) && Plurality(results, k) :: j == k
  }

  function TTLsOn(k: string): ResolverResult -> set<TTL> {
    (r: ResolverResult) => if HasKey(r, k) then TTLs(r.answers) else {}
  }

  /** A positive TTL served with the answer set `k` exceeds every TTL served with another one. */
  ghost predicate Outlasts(results: seq<ResolverResult>, k: string) {
    exists t: TTL :: t in Union(results, TTLsOn(k)) && t > 0 && forall x | x in DivergentTTLs(results, k) :: x < t
  }

  /** No answer set that ties for the majority outlasts the others. */
  ghost predicate TiesAreHarmless(results: seq<ResolverResult>) {
    forall j, k | Plurality(results, j) && Plurality(results, k) && j != k :: !Outlasts(results, j)
  }

  /** Two summaries of the same results, in any two orders and with any two tie-breaks, agree on
      everything but the estimate; they are equal when no tied answer set outlasts the others, in
      particular when there is no tie. */
  lemma SummariesAgree(a: seq<ResolverResult>, b: seq<ResolverResult>, s: CheckSummary, t: CheckSummary)
    requires multiset(a) == multiset(b) && Summarizes(a, s) && Summarizes(b, t)
    ensures s == t.(eta := s.eta)
    ensures UniquePlurality(a) ==> TiesAreHarmless(a)
    ensures TiesAreHarmless(a) ==> s == t
  {
    hide SummarizesWith, Plurality, Outlasts;
    var j :| SummarizesWith(a, s, j);
    var k :| SummarizesWith(b, t, k);
    SummaryIgnoresOrder(b, a, t, k);
    TieBreaksAgree(a, s, j, t, k);
    if TiesAreHarmless(a) { HarmlessTie(a, s, j, t, k); }
  }

  lemma HarmlessTie(results: seq<ResolverResult>, s: CheckSummary, j: string, t: CheckSummary, k: string)
    requires SummarizesWith(results, s, j) && SummarizesWith(results, t, k) && TiesAreHarmless(results)
    ensures s == t
  {
    hide SummarizesWith, Plurality, Outlasts, IsLongest;
    TieBreaksAgree(results, s, j, t, k);
    if j != k && s.responded > 0 {
      EstimateIsLongest(results, s, j);
      EstimateIsLongest(results, t, k);
      assert !Outlasts(results, j) && !Outlasts(results, k);
      hide *;
      SameEstimate(results, j, k, s.eta.value, t.eta.value);
    }
  }

  lemma SameEstimate(results: seq<ResolverResult>, j: string, k: string, atJ: TTL, atK: TTL)
    requires IsLongest(DivergentTTLs(results, j), atJ) && IsLongest(DivergentTTLs(results, k), atK)
    requires !Outlasts(results, j) && !Outlasts(results, k)
    ensures atJ == atK
  {
    hide *;
    LowerMeansOutlasting(results, j, k, atJ, atK);
    LowerMeansOutlasting(results, k, j, atK, atJ);
  }

  lemma EstimateIsLongest(results: seq<ResolverResult>, s: CheckSummary, k: string)
    requires SummarizesWith(results, s, k) && s.responded > 0
    ensures s.eta.Some? && IsLongest(DivergentTTLs(results, k), s.eta.value)
  {
  }

  /** Choosing one answer set rather than another lowers the estimate only if it outlasts the others. */
  lemma LowerMeansOutlasting(results: seq<ResolverResult>, j: string, k: string, atJ: TTL, atK: TTL)
    requires IsLongest(DivergentTTLs(results, j), atJ) && IsLongest(DivergentTTLs(results, k), atK)
    ensures atJ < atK ==> Outlasts(results, j)
  {
    if atJ < atK {
      hide AnswersKey, TTLs;
      UnionMembers(results, TTLsOff(k), atK);
      UnionMembers(results, TTLsOn(j), atK);
      UnionMembers(results, TTLsOff(j), atK);
      hide Union;
    }
  }

  lemma OutlastingLowers(results: seq<ResolverResult>, j: string, k: string, atJ: TTL, atK: TTL)
    requires IsLongest(DivergentTTLs(results, j), atJ) && IsLongest(DivergentTTLs(results, k), atK)
    requires Outlasts(results, j) && j != k
    ensures atJ < atK
  {
    var t: TTL :| t in Union(results, TTLsOn(j)) && t > 0 && forall x | x in DivergentTTLs(results, j) :: x < t;
    hide AnswersKey, TTLs;
    UnionMembers(results, TTLsOn(j), t);
    UnionMembers(results, TTLsOff(k), t);
    hide Union;
  }

  /** The results determine their summary exactly when no answer set that ties for the majority
      outlasts the others. */
  lemma SummaryIsDeterminedIff(results: seq<ResolverResult>)
    ensures (forall s, t | Summarizes(results, s) && Summarizes(results, t) :: s == t) <==> TiesAreHarmless(results)
  {
    if TiesAreHarmless(results) {
      hide Summarizes, TiesAreHarmless;
      forall s, t | Summarizes(results, s) && Summarizes(results, t) ensures s == t {
        SummariesAgree(results, results, s, t);
      }
    } else {
      var j, k :| Plurality(results, j) && Plurality(results, k) && j != k && Outlasts(results, j);
      var s := SummaryFor(results, j);
      var t := SummaryFor(results, k);
      SomebodyResponded(results, j, k);
      hide Plurality, Outlasts, Votes, Keys, DivergentTTLs;
      OutlastingLowers(results, j, k, s.eta.value, t.eta.value);
      assert Summarizes(results, s) && Summarizes(results, t) && s != t;
    }
  }

  lemma SomebodyResponded(results: seq<ResolverResult>, j: string, k: string)
    requires Plurality(results, j) && Plurality(results, k) && j != k
    ensures Count(results, IsResponder) > 0
  {
    hide AnswersKey;
    CountZero(results, IsResponder);
  }

  lemma TieBreaksAgree(results: seq<ResolverResult>, s: CheckSummary, j: string, t: CheckSummary, k: string)
    requires SummarizesWith(results, s, j) && SummarizesWith(results, t, k)
    ensures s == t.(eta := s.eta)
    ensures j == k || s.responded == 0 ==> s == t
    ensures s.responded > 0 ==> Plurality(results, j) && Plurality(results, k)
  {
    assert s.consensus == t.consensus;
    if s.responded > 0 {
      assert Votes(results, j) == Votes(results, k);
    }
  }

  /** An answer set returned by more than half of the responders has no rival. */
  lemma AbsoluteMajorityIsUnique(results: seq<ResolverResult>, s: CheckSummary)
    requires Summarizes(results, s) && s.convergedPct > 50
    ensures UniquePlurality(results)
  {
    var k :| SummarizesWith(results, s, k);
    ScaleUp(51, s.convergedPct, s.responded);
    VotesPositive(results, k);
    forall i, j | Plurality(results, i) && Plurality(results, j) ensures i == j {
      if i != j {
        RivalsShare(results, i, j);
      }
    }
  }

  lemma {:induction false} RivalsShare(results: seq<ResolverResult>, j: string, k: string)
    requires j != k
    ensures Votes(results, j) + Votes(results, k) <= Count(results, IsResponder)
  {
    if results != [] { RivalsShare(results[1..], j, k); }
  }

  /** Two resolvers, two answer sets: either may be taken for the majority. */
  lemma TwoRivals(x: ResolverResult, y: ResolverResult, s: CheckSummary, longest: TTL)
    requires IsOK(x) && IsOK(y) && AnswersKey(x.answers) != AnswersKey(y.answers)
    requires s == CheckSummary(2, 2, 0, 0, 0, 2,
                               map[AnswersKey(x.answers) := 1, AnswersKey(y.answers) := 1], 50, Some(longest))
    ensures IsLongest(TTLs(y.answers), longest) ==> SummarizesWith([x, y], s, AnswersKey(x.answers))
    ensures IsLongest(TTLs(x.answers), longest) ==> SummarizesWith([x, y], s, AnswersKey(y.answers))
  {
    RivalKeys(x, y);
    RivalTTLs(x, y);
    CountPair(x, y, IsResponder);
    CountPair(x, y, IsNXDomain);
    CountPair(x, y, IsTimeout);
    CountPair(x, y, IsFailure);
    assert Percent(1, 2) == 50;
    hide AnswersKey, Count, Votes, Keys, DivergentTTLs;
  }

  lemma RivalKeys(x: ResolverResult, y: ResolverResult)
    requires IsOK(x) && IsOK(y) && AnswersKey(x.answers) != AnswersKey(y.answers)
    ensures Keys([x, y]) == {AnswersKey(x.answers), AnswersKey(y.answers)} && |Keys([x, y])| == 2
    ensures Votes([x, y], AnswersKey(x.answers)) == Votes([x, y], AnswersKey(y.answers)) == 1
  {
    hide AnswersKey, Count;
    var j, k := AnswersKey(x.answers), AnswersKey(y.answers);
    assert Keys([x, y]) == {j, k};
    hide Keys;
    CountPair(x, y, WithKey(j));
    CountPair(x, y, WithKey(k));
  }

  lemma RivalTTLs(x: ResolverResult, y: ResolverResult)
    requires IsOK(x) && IsOK(y) && AnswersKey(x.answers) != AnswersKey(y.answers)
    ensures DivergentTTLs([x, y], AnswersKey(x.answers)) == TTLs(y.answers)
    ensures DivergentTTLs([x, y], AnswersKey(y.answers)) == TTLs(x.answers)
  {
    hide AnswersKey, Union, TTLs;
    UnionPair(x, y, TTLsOff(AnswersKey(x.answers)));
    UnionPair(x, y, TTLsOff(AnswersKey(y.answers)));
  }

  /** With such a tie the estimate does depend on the order in which the vote map is visited. */
  lemma TieLeavesEtaOpen(resolver: Resolver) returns (results: seq<ResolverResult>, s: CheckSummary, t: CheckSummary)
    ensures Summarizes(results, s) && Summarizes(results, t) && s.eta != t.eta
  {
    var x := Single(resolver, 10, "a");
    var y := Single(resolver, 20, "b");
    results := [x, y];
    s := CheckSummary(2, 2, 0, 0, 0, 2, map["a" := 1, "b" := 1], 50, Some(20));
    t := s.(eta := Some(10));
    hide AnswersKey, TTLs, Summarizes;
    RivalSummary(x, y, s, 20);
    RivalSummary(x, y, t, 10);
  }

  lemma RivalSummary(x: ResolverResult, y: ResolverResult, s: CheckSummary, longest: TTL)
    requires IsOK(x) && IsOK(y) && AnswersKey(x.answers) != AnswersKey(y.answers)
    requires s == CheckSummary(2, 2, 0, 0, 0, 2,
                               map[AnswersKey(x.answers) := 1, AnswersKey(y.answers) := 1], 50, Some(longest))
    requires IsLongest(TTLs(y.answers), longest) || IsLongest(TTLs(x.answers), longest)
    ensures Summarizes([x, y], s)
  {
    TwoRivals(x, y, s, longest);
  }

  lemma Single(resolver: Resolver, ttl: TTL, value: string) returns (r: ResolverResult)
    ensures IsOK(r) && AnswersKey(r.answers) == value && TTLs(r.answers) == {ttl}
  {
    r := ResolverResult(resolver, OK, [Answer("", "A", ttl, value)]);
    SingletonKey(r.answers[0]);
  }
}
