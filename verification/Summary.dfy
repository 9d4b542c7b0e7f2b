/** The aggregate of a check: how many resolvers answered what, how far they agree, and how long
    the disagreement can last. */
module Summary {
  import opened Collections
  import opened Dns
  import Text

  const EMPTY_KEY := "<empty>"

  datatype CheckSummary = CheckSummary(
    total: nat,
    responded: nat,
    nxdomain: nat,
    timeouts: nat,
    errors: nat,
    uniqueAnswerSets: nat,
    consensus: map<string, nat>,
    convergedPct: nat,
    eta: Option<TTL>)

  /** The text under which an answer list is counted. */
  function AnswersKey(answers: seq<Answer>): string {
    if answers == [] then EMPTY_KEY else Text.Join(Text.Sort(Values(answers)), ',')
  }

  lemma SingletonKey(a: Answer)
    ensures AnswersKey([a]) == a.value
  {
    assert Values([a]) == [a.value];
    assert Text.Sort([a.value]) == [a.value];
  }

  /** Values for which the key is unambiguous: no separator inside, not the word kept for "no answers". */
  predicate Plain(answers: seq<Answer>) {
    forall v | v in Values(answers) :: ',' !in v && v != EMPTY_KEY
  }

  predicate SameValues(a: seq<Answer>, b: seq<Answer>) {
    multiset(Values(a)) == multiset(Values(b))
  }

  /** The key never separates lists with the same values. */
  lemma KeySeesOnlyValues(a: seq<Answer>, b: seq<Answer>)
    requires SameValues(a, b)
    ensures AnswersKey(a) == AnswersKey(b)
  {
    Text.SortDecidesMultiset(Values(a), Values(b));
    PermutationMembers(Values(a), Values(b));
  }

  /** On plain values the key decides multiset equality. */
  lemma KeyDecidesValues(a: seq<Answer>, b: seq<Answer>)
    requires Plain(a) && Plain(b)
    ensures AnswersKey(a) == AnswersKey(b) <==> SameValues(a, b)
  {
    if SameValues(a, b) {
      KeySeesOnlyValues(a, b);
    } else if AnswersKey(a) == AnswersKey(b) {
      if a == [] {
        PlainKeyIsNotEmptyKey(b);
        assert false;
      } else if b == [] {
        PlainKeyIsNotEmptyKey(a);
        assert false;
      } else {
        SortedFree(a);
        SortedFree(b);
        Text.JoinInjective(Text.Sort(Values(a)), Text.Sort(Values(b)), ',');
        Text.SortDecidesMultiset(Values(a), Values(b));
      }
    }
  }

  lemma SortedFree(a: seq<Answer>)
    requires Plain(a) && a != []
    ensures Text.Sort(Values(a)) != [] && Text.Free(Text.Sort(Values(a)), ',')
  {
    Text.SortSorts(Values(a));
    PermutationMembers(Text.Sort(Values(a)), Values(a));
  }

  lemma PlainKeyIsNotEmptyKey(a: seq<Answer>)
    requires Plain(a) && a != []
    ensures AnswersKey(a) != EMPTY_KEY
  {
    var s := Text.Sort(Values(a));
    SortedFree(a);
    Text.SortSorts(Values(a));
    PermutationMembers(s, Values(a));
    assert s[0] in Values(a);
    if Text.Join(s, ',') == EMPTY_KEY { Text.JoinWithoutSeparator(s, ',', EMPTY_KEY); }
  }

  /** Off plain values the key conflates different answer sets: two values against one with a comma
      inside, and no answers against one that spells the reserved word. */
  lemma KeyConflates(value: string) returns (one: seq<Answer>, two: seq<Answer>, word: seq<Answer>)
    ensures |one| == 1 && |two| == 2 && AnswersKey(one) == AnswersKey(two) && !SameValues(one, two)
    ensures AnswersKey(word) == AnswersKey([]) && !SameValues(word, [])
  {
    one := [Answer("", "TXT", 0, value + [','] + value)];
    two := [Answer("", "TXT", 0, value), Answer("", "TXT", 0, value)];
    word := [Answer("", "TXT", 0, EMPTY_KEY)];
    SingletonKey(one[0]);
    SingletonKey(word[0]);
    Text.AtMostTotal(value, value);
    PairKey(two[0], two[1]);
    assert |multiset(Values(one))| == 1 && |multiset(Values(two))| == 2;
    assert |multiset(Values(word))| == 1 && |multiset(Values([]))| == 0;
  }

  /** A comma in `v` with a value before it that sorts no later than the one after it. */
  predicate Breaks(v: string, i: nat) {
    i < |v| && v[i] == ',' && Text.AtMost(v[..i], v[i + 1..])
  }

  /** A value shares its key with another answer list exactly when it is the reserved word or breaks at
      some comma into two values in sorted order. */
  lemma ValueIsAmbiguousIff(v: string, a: Answer)
    requires a.value == v
    ensures (exists b :: AnswersKey(b) == AnswersKey([a]) && !SameValues(b, [a])) <==> v == EMPTY_KEY || exists i :: Breaks(v, i)
  {
    SingletonKey(a);
    if v == EMPTY_KEY {
      WordConflates(a);
    } else if i :| Breaks(v, i) {
      var b := BreakConflates(a, i);
    } else {
      forall b | AnswersKey(b) == v ensures SameValues(b, [a]) {
        UnbrokenIsAlone(b, a);
      }
    }
  }

  lemma WordConflates(a: Answer)
    requires a.value == EMPTY_KEY
    ensures AnswersKey([]) == AnswersKey([a]) && !SameValues([], [a])
  {
    SingletonKey(a);
    assert |multiset(Values([a]))| == 1 && |multiset(Values([]))| == 0;
  }

  lemma BreakConflates(a: Answer, i: nat) returns (b: seq<Answer>)
    requires Breaks(a.value, i)
    ensures AnswersKey(b) == AnswersKey([a]) && !SameValues(b, [a])
  {
    var x, y := a.value[..i], a.value[i + 1..];
    b := [a.(value := x), a.(value := y)];
    SingletonKey(a);
    PairKey(b[0], b[1]);
    assert a.value == x + [','] + y;
    assert |multiset(Values([a]))| == 1 && |multiset(Values(b))| == 2;
  }

  lemma PairKey(a: Answer, b: Answer)
    requires Text.AtMost(a.value, b.value)
    ensures AnswersKey([a, b]) == a.value + [','] + b.value
  {
    var x, y := a.value, b.value;
    assert Values([a, b]) == [x, y];
    assert [x, y][1..] == [y];
    assert Text.Sort([y]) == [y];
    assert Text.Sort([x, y]) == [x, y];
    assert Text.Join([y], ',') == y;
  }

  lemma UnbrokenIsAlone(b: seq<Answer>, a: Answer)
    requires AnswersKey(b) == a.value != EMPTY_KEY
    ensures SameValues(b, [a]) || exists i :: Breaks(a.value, i)
  {
    var s := Text.Sort(Values(b));
    Text.SortSorts(Values(b));
    if |b| == 1 {
      SingletonKey(b[0]);
      assert Values(b) == [a.value] == Values([a]);
    } else {
      Text.JoinBreaks(s, ',');
      assert Breaks(a.value, |s[0]|);
    }
  }

  // --- What the summary counts ---------------------------------------------------------------

  predicate IsOK(r: ResolverResult) { r.status.OK? }

  predicate IsNXDomain(r: ResolverResult) { r.status.NXDomain? }

  predicate IsTimeout(r: ResolverResult) { r.status.Timeout? }

  predicate IsFailure(r: ResolverResult) { !IsOK(r) && !IsNXDomain(r) && !IsTimeout(r) }

  predicate IsResponder(r: ResolverResult) { IsOK(r) || IsNXDomain(r) }

  predicate HasKey(r: ResolverResult, k: string) { IsOK(r) && AnswersKey(r.answers) == k }

  function WithKey(k: string): ResolverResult -> bool {
    (r: ResolverResult) => HasKey(r, k)
  }

  /** How many resolvers returned the answer set named `k`. */
  function Votes(results: seq<ResolverResult>, k: string): nat {
    Count(results, WithKey(k))
  }

  /** The distinct answer-set names among the OK results. */
  function Keys(results: seq<ResolverResult>): set<string> {
    set r | r in results && IsOK(r) :: AnswersKey(r.answers)
  }

  /** `k` is a most frequent answer set; "" when no resolver returned one. Ties leave a choice,
      which the program makes by the iteration order of a map. */
  ghost predicate Plurality(results: seq<ResolverResult>, k: string) {
    if Keys(results) == {} then k == ""
    else k in Keys(results) && forall other | other in Keys(results) :: Votes(results, other) <= Votes(results, k)
  }

  function TTLs(answers: seq<Answer>): set<TTL> {
    set a | a in answers :: a.ttl
  }

  /** The TTLs in an answer set other than `k`. */
  function TTLsOff(k: string): ResolverResult -> set<TTL> {
    (r: ResolverResult) => if IsOK(r) && !HasKey(r, k) then TTLs(r.answers) else {}
  }

  /** The TTLs seen by the resolvers that answered, but not with the answer set `k`. */
  function DivergentTTLs(results: seq<ResolverResult>, k: string): set<TTL> {
    Union(results, TTLsOff(k))
  }

  /** `t` is the largest member of `ttls`, or 0 when there is none. */
  predicate IsLongest(ttls: set<TTL>, t: TTL) {
    (forall x | x in ttls :: x <= t) && (t == 0 || t in ttls)
  }

  /** `s` is a summary of `results` in which `k` was taken for the majority answer set. */
  ghost predicate SummarizesWith(results: seq<ResolverResult>, s: CheckSummary, k: string) {
    && s.total == |results|
    && s.responded == Count(results, IsResponder)
    && s.nxdomain == Count(results, IsNXDomain)
    && s.timeouts == Count(results, IsTimeout)
    && s.errors == Count(results, IsFailure)
    && s.consensus.Keys == Keys(results)
    && (forall key | key in s.consensus :: s.consensus[key] == Votes(results, key))
    && s.uniqueAnswerSets == |Keys(results)|
    && (if s.responded == 0 then s.convergedPct == 0 && s.eta == None
        else
          && Plurality(results, k)
          && s.convergedPct == Percent(Votes(results, k), s.responded)
          && s.eta.Some?
          && IsLongest(DivergentTTLs(results, k), s.eta.value))
  }

  ghost predicate Summarizes(results: seq<ResolverResult>, s: CheckSummary) {
    exists k :: SummarizesWith(results, s, k)
  }

  /** Integer percentage, rounded down. */
  function Percent(part: nat, whole: nat): (p: nat)
    requires whole > 0
    ensures p * whole <= part * 100 < (p + 1) * whole
  {
    part * 100 / whole
  }

  /** A part is all of the whole exactly when it makes 100 per cent. */
  lemma PercentOfPart(part: nat, whole: nat)
    requires 0 < whole && part <= whole
    ensures Percent(part, whole) <= 100
    ensures Percent(part, whole) == 100 <==> part == whole
  {
    var p := Percent(part, whole);
    if p > 100 { ScaleUp(101, p, whole); }
    if p < 100 { ScaleUp(p + 1, 100, whole); }
  }

  lemma ScaleUp(a: nat, b: nat, c: nat)
    requires a <= b
    ensures a * c <= b * c
  {
  }

  // --- Building it ---------------------------------------------------------------------------

  /** Counts the results by status and by answer set. */
  method Tally(results: seq<ResolverResult>)
    returns (responded: nat, nxdomain: nat, timeouts: nat, errors: nat, consensus: map<string, nat>)
    ensures responded == Count(results, IsResponder)
    ensures nxdomain == Count(results, IsNXDomain)
    ensures timeouts == Count(results, IsTimeout)
    ensures errors == Count(results, IsFailure)
    ensures consensus.Keys == Keys(results)
    ensures forall k | k in consensus :: consensus[k] == Votes(results, k)
  {
    responded, nxdomain, timeouts, errors, consensus := 0, 0, 0, 0, map[];
    for i := 0 to |results|
      invariant responded == Count(results[..i], IsResponder)
      invariant nxdomain == Count(results[..i], IsNXDomain)
      invariant timeouts == Count(results[..i], IsTimeout)
      invariant errors == Count(results[..i], IsFailure)
      invariant consensus.Keys == Keys(results[..i])
      invariant forall k | k in consensus :: consensus[k] == Votes(results[..i], k)
    {
      var r := results[i];
      CountSnoc(results, i, IsResponder);
      CountSnoc(results, i, IsNXDomain);
      CountSnoc(results, i, IsTimeout);
      CountSnoc(results, i, IsFailure);
      KeysSnoc(results, i);
      match r.status {
        case OK =>
          responded := responded + 1;
          var key := AnswersKey(r.answers);
          consensus := consensus[key := if key in consensus then consensus[key] + 1 else 1];
        case NXDomain =>
          nxdomain := nxdomain + 1;
          responded := responded + 1;
        case Timeout =>
          timeouts := timeouts + 1;
        case _ =>
          errors := errors + 1;
      }
    }
    assert results[..|results|] == results;
  }

  lemma KeysSnoc(results: seq<ResolverResult>, i: nat)
    requires i < |results|
    ensures Keys(results[..i + 1]) ==
            Keys(results[..i]) + if IsOK(results[i]) then {AnswersKey(results[i].answers)} else {}
    ensures forall k :: Votes(results[..i + 1], k) ==
                        Votes(results[..i], k) + if HasKey(results[i], k) then 1 else 0
    ensures forall k | k !in Keys(results[..i]) :: Votes(results[..i], k) == 0
  {
    assert results[..i + 1] == results[..i] + [results[i]];
    forall k
      ensures Votes(results[..i + 1], k) == Votes(results[..i], k) + if HasKey(results[i], k) then 1 else 0
    {
      CountSnoc(results, i, WithKey(k));
    }
    forall k | k !in Keys(results[..i]) ensures Votes(results[..i], k) == 0 {
      VotesPositive(results[..i], k);
    }
  }

  lemma VotesPositive(results: seq<ResolverResult>, k: string)
    ensures Votes(results, k) > 0 <==> k in Keys(results)
  {
    CountZero(results, WithKey(k));
  }

  /** Picks a most frequent key, visiting the map in an arbitrary order as a map range does. */
  method Majority(consensus: map<string, nat>) returns (key: string, count: nat)
    requires forall k | k in consensus :: consensus[k] > 0
    ensures consensus == map[] ==> key == "" && count == 0
    ensures consensus != map[] ==> key in consensus && count == consensus[key]
    ensures forall k | k in consensus :: consensus[k] <= count
  {
    key, count := "", 0;
    var todo := consensus.Keys;
    while todo != {}
      invariant todo <= consensus.Keys
      invariant todo == consensus.Keys ==> key == "" && count == 0
      invariant todo != consensus.Keys ==> key in consensus && count == consensus[key]
      invariant forall k | k in consensus && k !in todo :: consensus[k] <= count
      decreases |todo|
    {
      var k :| k in todo;
      if consensus[k] > count {
        key, count := k, consensus[k];
      }
      todo := todo - {k};
    }
    if consensus != map[] {
      assert exists k :: k in consensus.Keys;
    }
  }

  /** The largest TTL among the answers of the OK results that do not serve `majority`. */
  method LongestTTL(results: seq<ResolverResult>, majority: string) returns (longest: TTL)
    ensures IsLongest(DivergentTTLs(results, majority), longest)
  {
    longest := 0;
    for i := 0 to |results|
      invariant IsLongest(DivergentTTLs(results[..i], majority), longest)
    {
      var r := results[i];
      UnionSnoc(results, i, TTLsOff(majority));
      if IsOK(r) && AnswersKey(r.answers) != majority {
        longest := RaiseTo(longest, r.answers);
      }
    }
    assert results[..|results|] == results;
  }

  method RaiseTo(floor: TTL, answers: seq<Answer>) returns (longest: TTL)
    ensures floor <= longest && (longest == floor || longest in TTLs(answers))
    ensures forall x | x in TTLs(answers) :: x <= longest
  {
    longest := floor;
    for j := 0 to |answers|
      invariant floor <= longest && (longest == floor || longest in TTLs(answers))
      invariant forall a | a in answers[..j] :: a.ttl <= longest
    {
      assert answers[..j + 1] == answers[..j] + [answers[j]];
      if answers[j].ttl > longest {
        longest := answers[j].ttl;
      }
    }
    assert answers[..|answers|] == answers;
  }

  method BuildSummary(results: seq<ResolverResult>) returns (s: CheckSummary)
    ensures Summarizes(results, s)
  {
    var responded, nxdomain, timeouts, errors, consensus := Tally(results);
    var pct, eta: Option<TTL>, majority := 0, None, "";
    if responded > 0 {
      forall key | key in consensus ensures consensus[key] > 0 { VotesPositive(results, key); }
      var count;
      majority, count := Majority(consensus);
      MajorityIsPlurality(results, consensus, majority, count);
      pct := Percent(count, responded);
      var longest := LongestTTL(results, majority);
      eta := Some(longest);
    }
    s := CheckSummary(|results|, responded, nxdomain, timeouts, errors, |consensus.Keys|, consensus, pct, eta);
    assert SummarizesWith(results, s, majority);
  }

  lemma MajorityIsPlurality(results: seq<ResolverResult>, consensus: map<string, nat>, key: string, count: nat)
    requires consensus.Keys == Keys(results)
    requires forall k | k in consensus :: consensus[k] == Votes(results, k) <= count
    requires consensus == map[] ==> key == "" && count == 0
    requires consensus != map[] ==> key in consensus && count == consensus[key]
    ensures Plurality(results, key) && count == Votes(results, key)
  {
    VotesPositive(results, key);
    if consensus == map[] {
      assert Keys(results) == {};
    } else {
      assert key in Keys(results);
      forall other | other in Keys(results) ensures Votes(results, other) <= count {
        assert other in consensus;
      }
    }
  }
}
