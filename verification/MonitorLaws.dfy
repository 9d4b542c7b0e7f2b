/** Monitors over whole histories, and against the summary of the check they evaluate. */
module MonitorLaws {
  import opened Collections
  import opened Dns
  import opened Monitor
  import opened Settings
  import Summary
  import SummaryLaws
  import Text

  // --- Histories of a change monitor ---------------------------------------------------------

  /** The runs of one change monitor: `baselines[k]` and `sent[k]` are its baseline and the messages
      sent before run `k`. */
  datatype History = History(
    baselines: seq<seq<string>>,
    outcomes: seq<Option<seq<ResolverResult>>>,
    events: seq<Event>,
    channelID: string,
    channels: seq<Option<seq<Channel>>>,
    sent: seq<seq<Channel>>)

  ghost predicate IsHistory(h: History) {
    && |h.baselines| == |h.sent| == |h.events| + 1
    && |h.outcomes| == |h.channels| == |h.events|
    && forall k | 0 <= k < |h.events| ::
         && MonitorRun(CHANGE, h.baselines[k], h.outcomes[k], h.events[k], h.baselines[k + 1])
         && Notifies(h.events[k], h.channelID, h.channels[k], h.sent[k], h.sent[k + 1])
  }

  /** What the last successful check before run `k` observed; the initial baseline before any. */
  function LastSeen(h: History, k: nat): seq<string>
    requires |h.baselines| > 0 && k <= |h.events| == |h.outcomes|
  {
    if k == 0 then h.baselines[0]
    else if h.outcomes[k - 1].Some? then h.events[k - 1].observed
    else LastSeen(h, k - 1)
  }

  /** The baseline is what was last seen. */
  lemma {:induction false} BaselineIsLastSeen(h: History, k: nat)
    requires IsHistory(h) && k <= |h.events|
    ensures multiset(h.baselines[k]) == multiset(LastSeen(h, k))
  {
    if k > 0 {
      BaselineIsLastSeen(h, k - 1);
      hide IsConsensus;
      assert MonitorRun(CHANGE, h.baselines[k - 1], h.outcomes[k - 1], h.events[k - 1], h.baselines[k]);
      SetEqualIsMultisetEquality(h.events[k - 1].observed, h.baselines[k - 1]);
    }
  }

  /** A run reports a change exactly when its check succeeded and observed something else than was
      last seen, provided something was seen then. */
  lemma ChangedIff(h: History, k: nat)
    requires IsHistory(h) && k < |h.events|
    ensures h.events[k].status == Changed <==>
            && h.outcomes[k].Some?
            && LastSeen(h, k) != []
            && multiset(h.events[k].observed) != multiset(LastSeen(h, k))
  {
    hide IsConsensus;
    BaselineIsLastSeen(h, k);
    PermutationMembers(h.baselines[k], LastSeen(h, k));
    assert MonitorRun(CHANGE, h.baselines[k], h.outcomes[k], h.events[k], h.baselines[k + 1]);
    SetEqualIsMultisetEquality(h.events[k].observed, h.baselines[k]);
  }

  predicate IsChange(ev: Event) { ev.status == Changed }

  /** No more messages than reported changes. */
  lemma {:induction false} MessagesAreChanges(h: History, k: nat)
    requires IsHistory(h) && k <= |h.events|
    ensures |h.sent[k]| <= |h.sent[0]| + Count(h.events[..k], IsChange)
    ensures h.sent[0] <= h.sent[k]
  {
    if k > 0 {
      MessagesAreChanges(h, k - 1);
      CountSnoc(h.events, k - 1, IsChange);
      hide IsConsensus;
      assert MonitorRun(CHANGE, h.baselines[k - 1], h.outcomes[k - 1], h.events[k - 1], h.baselines[k]);
      assert Notifies(h.events[k - 1], h.channelID, h.channels[k - 1], h.sent[k - 1], h.sent[k]);
    }
  }

  /** What an evaluation sends and to whom, for the alerts of either kind of monitor. */
  lemma AlertReaches(
    ev: Event, channelID: string, channels: Option<seq<Channel>>, before: seq<Channel>, after: seq<Channel>)
    requires Notifies(ev, channelID, channels, before, after)
    ensures ev.status in {Changed, NotPropagated} && channelID != "" && channels.Some? ==>
              forall i | Binds(channels.value, channelID, i) :: after == before + [channels.value[i]]
    ensures ev.status in {Okay, Failed} || channelID == "" || channels.None? ==> after == before
    ensures after == before || exists i :: channels.Some? && Binds(channels.value, channelID, i) && after == before + [channels.value[i]]
    ensures ev.notified ==> after != before
  {
    if channels.Some? {
      BoundChannelIs(channels.value, channelID);
      forall i | Binds(channels.value, channelID, i) ensures BoundChannel(channels.value, channelID) == Some(channels.value[i]) {
      }
    }
    hide BoundChannel;
  }

  /** Every message of a history goes to an enabled channel with the ID the monitor is bound to, one that
      was configured at a run before. */
  lemma {:induction false} MessagesReachTheirChannel(h: History, k: nat)
    requires IsHistory(h) && k <= |h.events|
    ensures forall m | |h.sent[0]| <= m < |h.sent[k]| ::
              && h.sent[k][m].id == h.channelID && h.sent[k][m].enabled
              && exists j :: 0 <= j < k && h.channels[j].Some? && h.sent[k][m] in h.channels[j].value
  {
    if k > 0 {
      MessagesReachTheirChannel(h, k - 1);
      hide MonitorRun;
      assert Notifies(h.events[k - 1], h.channelID, h.channels[k - 1], h.sent[k - 1], h.sent[k]);
      AlertReaches(h.events[k - 1], h.channelID, h.channels[k - 1], h.sent[k - 1], h.sent[k]);
      hide Notifies, BoundChannel;
    }
  }

  /** Every reported change is sent, once, to the first enabled channel with the monitor's ID; other runs
      send nothing. */
  lemma ChangesAreSent(h: History, k: nat)
    requires IsHistory(h) && k < |h.events|
    ensures h.events[k].status == Changed && h.channelID != "" && h.channels[k].Some? ==>
              forall i | Binds(h.channels[k].value, h.channelID, i) :: h.sent[k + 1] == h.sent[k] + [h.channels[k].value[i]]
    ensures h.events[k].status != Changed ==> h.sent[k + 1] == h.sent[k]
  {
    hide IsConsensus;
    assert MonitorRun(CHANGE, h.baselines[k], h.outcomes[k], h.events[k], h.baselines[k + 1]);
    assert h.events[k].status != NotPropagated;
    hide MonitorRun;
    assert Notifies(h.events[k], h.channelID, h.channels[k], h.sent[k], h.sent[k + 1]);
    AlertReaches(h.events[k], h.channelID, h.channels[k], h.sent[k], h.sent[k + 1]);
    hide Notifies;
  }

  /** A failed check is reported as such and changes nothing; a propagation monitor reports success exactly
      when somebody responded and every responder returned the expected values, and keeps them. */
  lemma EventMeans(kind: string, before: seq<string>, outcome: Option<seq<ResolverResult>>, ev: Event, after: seq<string>)
    requires MonitorRun(kind, before, outcome, ev, after)
    ensures outcome == None <==> ev.status == Failed
    ensures outcome == None || kind != "change" ==> after == before
    ensures outcome.Some? && kind == "change" ==>
              && ev.status in {Okay, Changed}
              && (ev.status == Changed <==> before != [] && multiset(ev.observed) != multiset(before))
              && multiset(after) == multiset(ev.observed)
    ensures outcome.Some? && kind != "change" ==>
              && ev.status in {Okay, NotPropagated}
              && (ev.status == Okay <==>
                    && (exists r :: r in outcome.value && r.status in {OK, NXDomain})
                    && forall r | r in outcome.value && r.status in {OK, NXDomain} ::
                         r.status == OK && multiset(Values(r.answers)) == multiset(before))
  {
    if outcome.Some? {
      SetEqualIsMultisetEquality(ev.observed, before);
      PropagatedMeansAllMatch(outcome.value, before);
      assert forall r: ResolverResult :: Summary.IsResponder(r) <==> r.status in {OK, NXDomain};
      hide Propagated, IsConsensus;
    }
  }

  /** Not every change is alerted: a value that comes back after it was seen missing is taken for a
      first baseline, even if it differs from what was there before. */
  lemma ReturnIsSilent(resolver: Resolver, first: string, second: string) returns (h: History)
    requires first != second
    ensures IsHistory(h) && |h.events| == 2
    ensures h.baselines == [[first], [], [second]]
    ensures h.events[0].status == Changed && h.events[1].status == Okay && h.events[1].observed == [second]
  {
    var gone := [ResolverResult(resolver, NXDomain, [])];
    var back := [ResolverResult(resolver, OK, [Answer("", "A", 0, second)])];
    assert BareKeys(gone) == {};
    SoleConsensus(back[0], second);
    assert !SetEqual([], [first]);
    h := History([[first], [], [second]], [Some(gone), Some(back)],
                 [Event("", Changed, [], false), Event("", Okay, [second], false)], "", [None, None], [[], [], []]);
    hide IsConsensus;
    assert MonitorRun(CHANGE, h.baselines[0], h.outcomes[0], h.events[0], h.baselines[1]);
    assert MonitorRun(CHANGE, h.baselines[1], h.outcomes[1], h.events[1], h.baselines[2]);
  }

  lemma SoleConsensus(r: ResolverResult, value: string)
    requires r.status.OK? && |r.answers| == 1 && r.answers[0].value == value
    ensures IsConsensus([r], [value])
  {
    assert Values(r.answers) == [value];
    assert Text.Sort([value]) == [value];
    assert BareKeys([r]) == {BareKey(r.answers)};
    assert IsLastWith([r], BareKey(r.answers), 0);
  }

  // --- Propagation against the summary -------------------------------------------------------

  /** Every responder answered with the same values. */
  ghost predicate Uniform(results: seq<ResolverResult>) {
    && (forall r | r in results && Summary.IsResponder(r) :: r.status.OK?)
    && (forall q, r | q in results && r in results && q.status.OK? && r.status.OK? :: Summary.SameValues(q.answers, r.answers))
  }

  lemma PropagatedMeansAllMatch(results: seq<ResolverResult>, expected: seq<string>)
    ensures Propagated(results, expected) <==>
            && (exists r :: r in results && Summary.IsResponder(r))
            && forall r | r in results && Summary.IsResponder(r) :: r.status.OK? && multiset(Values(r.answers)) == multiset(expected)
  {
    CountZero(results, Summary.IsResponder);
    CountMonotone(results, Matching(expected), Summary.IsResponder);
    forall r | r in results ensures Matches(r, expected) <==> r.status.OK? && multiset(Values(r.answers)) == multiset(expected) {
      SetEqualIsMultisetEquality(Values(r.answers), expected);
    }
  }

  /** The consensus is what some OK result returned. */
  lemma ConsensusIsReturned(results: seq<ResolverResult>, observed: seq<string>) returns (r: ResolverResult)
    requires IsConsensus(results, observed) && exists q :: q in results && q.status.OK?
    ensures r in results && r.status.OK? && multiset(Values(r.answers)) == multiset(observed)
  {
    assert BareKeys(results) != {} by {
      var q :| q in results && q.status.OK?;
      assert BareKey(q.answers) in BareKeys(results);
    }
    var k, i: nat :|
      && (forall other | other in BareKeys(results) :: BareVotes(results, other) <= BareVotes(results, k))
      && IsLastWith(results, k, i)
      && observed == Text.Sort(Values(results[i].answers));
    r := results[i];
    Text.SortSorts(Values(r.answers));
  }

  /** What a monitor observes: nothing without an OK result, else the values some OK result returned, in
      sorted order, counted as often as any other answer. */
  lemma ConsensusMeans(results: seq<ResolverResult>, observed: seq<string>)
    requires IsConsensus(results, observed)
    ensures (forall r | r in results :: r.status != OK) ==> observed == []
    ensures (exists r :: r in results && r.status == OK) ==>
              exists r :: r in results && r.status == OK && multiset(Values(r.answers)) == multiset(observed)
    ensures Text.Sorted(observed)
  {
    hide BareKey, BareVotes;
    if q :| q in results && q.status == OK {
      hide Text.Sort, Text.Sorted;
      var r := ConsensusIsReturned(results, observed);
    } else {
      assert BareKeys(results) == {};
    }
    ObservedIsSorted(results, observed);
  }

  lemma ObservedIsSorted(results: seq<ResolverResult>, observed: seq<string>)
    requires IsConsensus(results, observed)
    ensures Text.Sorted(observed)
  {
    hide BareKey, BareVotes, Text.Sort, BareKeys;
    if BareKeys(results) != {} {
      var k, i: nat :|
        && (forall other | other in BareKeys(results) :: BareVotes(results, other) <= BareVotes(results, k))
        && IsLastWith(results, k, i)
        && observed == Text.Sort(Values(results[i].answers));
      Text.SortSorts(Values(results[i].answers));
    }
  }

  /** A propagation monitor reports success exactly when the check's own summary shows full
      convergence, the consensus is the expected value, and agreement by name is agreement by value. */
  lemma PropagatedIff(results: seq<ResolverResult>, expected: seq<string>, s: Summary.CheckSummary, observed: seq<string>)
    requires Summary.Summarizes(results, s) && IsConsensus(results, observed)
    ensures Propagated(results, expected) <==> s.convergedPct == 100 && SetEqual(observed, expected) && Uniform(results)
    ensures Propagated(results, expected) ==> s.uniqueAnswerSets == 1
  {
    hide Summary.Summarizes, IsConsensus, Propagated, Summary.AnswersKey;
    PropagatedMeansAllMatch(results, expected);
    SummaryLaws.ConvergenceIsAgreement(results, s);
    SetEqualIsMultisetEquality(observed, expected);
    if Propagated(results, expected) {
      MatchingConverges(results, expected);
      var r := ConsensusIsReturned(results, observed);
    } else if s.convergedPct == 100 && SetEqual(observed, expected) && Uniform(results) {
      var k :| SummaryLaws.AgreeOn(results, k);
      var q :| q in results && Summary.IsResponder(q);
      assert Summary.HasKey(q, k);
      var r := ConsensusIsReturned(results, observed);
    }
  }

  lemma MatchingConverges(results: seq<ResolverResult>, expected: seq<string>)
    requires exists r :: r in results && Summary.IsResponder(r)
    requires forall r | r in results && Summary.IsResponder(r) :: r.status.OK? && multiset(Values(r.answers)) == multiset(expected)
    ensures exists k :: SummaryLaws.AgreeOn(results, k)
  {
    var q :| q in results && Summary.IsResponder(q);
    var k := Summary.AnswersKey(q.answers);
    forall r | r in results && Summary.IsResponder(r) ensures Summary.HasKey(r, k) {
      Summary.KeySeesOnlyValues(r.answers, q.answers);
    }
    assert SummaryLaws.AgreeOn(results, k);
  }

  /** On plain values convergence is uniformity, so there the two computations agree outright. */
  lemma PropagatedIffOnPlainValues(
    results: seq<ResolverResult>, expected: seq<string>, s: Summary.CheckSummary, observed: seq<string>)
    requires Summary.Summarizes(results, s) && IsConsensus(results, observed)
    requires forall r | r in results && r.status.OK? :: Summary.Plain(r.answers)
    ensures Propagated(results, expected) <==> s.convergedPct == 100 && SetEqual(observed, expected)
  {
    hide Summary.Summarizes, IsConsensus, Propagated, Summary.AnswersKey, Summary.Plain;
    PropagatedIff(results, expected, s, observed);
    SummaryLaws.ConvergenceIsAgreement(results, s);
    if s.convergedPct == 100 {
      var k :| SummaryLaws.AgreeOn(results, k);
      forall q, r | q in results && r in results && q.status.OK? && r.status.OK? ensures Summary.SameValues(q.answers, r.answers) {
        assert Summary.HasKey(q, k) && Summary.HasKey(r, k);
        Summary.KeyDecidesValues(q.answers, r.answers);
      }
    }
  }

  /** Off plain values they need not: the summary shows 100 per cent and the consensus is the expected
      value, yet the monitor reports that the record has not propagated. */
  lemma ConvergedButNotPropagated(resolver: Resolver, value: string) returns (results: seq<ResolverResult>, observed: seq<string>)
    ensures forall s | Summary.Summarizes(results, s) :: s.convergedPct == 100
    ensures IsConsensus(results, observed) && !Propagated(results, observed)
  {
    var one, two, word := Summary.KeyConflates(value);
    results, observed := [ResolverResult(resolver, OK, one), ResolverResult(resolver, OK, two)], Text.Sort(Values(two));
    hide Summary.AnswersKey, Propagated, Text.Sort, IsConsensus, Summary.Summarizes, Summary.SameValues;
    ConflatedNeverMatch(results[0], results[1]);
  }

  /** Of two OK results, the second shows a most frequent answer list. */
  lemma SecondIsConsensus(p: ResolverResult, q: ResolverResult)
    requires p.status.OK? && q.status.OK?
    ensures IsConsensus([p, q], Text.Sort(Values(q.answers)))
  {
    var k, results := BareKey(q.answers), [p, q];
    hide BareKey, Text.Sort;
    CountPair(p, q, WithBareKey(k));
    CountPair(p, q, WithBareKey(BareKey(p.answers)));
    assert q in results && IsLastWith(results, k, 1);
    assert BareKeys(results) == {BareKey(p.answers), k};
    hide Count;
  }

  /** The OK results return answer lists from `lists`. */
  ghost predicate Drawn(results: seq<ResolverResult>, lists: set<seq<Answer>>) {
    forall r | r in results && r.status.OK? :: r.answers in lists
  }

  /** No two of the lists have different values and the same key. */
  ghost predicate KeysDecide(lists: set<seq<Answer>>) {
    forall a, b | a in lists && b in lists && Summary.AnswersKey(a) == Summary.AnswersKey(b) :: Summary.SameValues(a, b)
  }

  /** When the summary shows full convergence and the consensus is the expected value, the monitor
      reports success. */
  ghost predicate ConvergenceSuffices(results: seq<ResolverResult>, expected: seq<string>) {
    forall s, observed | Summary.Summarizes(results, s) && IsConsensus(results, observed) ::
      s.convergedPct == 100 && SetEqual(observed, expected) ==> Propagated(results, expected)
  }

  /** For answer lists from a given set, full convergence on the expected value is success on all results,
      exactly when the keys of the set tell different values apart. */
  lemma ConvergenceSufficesIff(lists: set<seq<Answer>>, resolver: Resolver)
    ensures (forall results, expected | Drawn(results, lists) :: ConvergenceSuffices(results, expected)) <==> KeysDecide(lists)
  {
    hide Summary.AnswersKey, Summary.SameValues, ConvergenceSuffices;
    if KeysDecide(lists) {
      forall results, expected | Drawn(results, lists) ensures ConvergenceSuffices(results, expected) {
        DecidingKeysSuffice(lists, results, expected);
      }
    } else {
      var a, b :| a in lists && b in lists && Summary.AnswersKey(a) == Summary.AnswersKey(b) && !Summary.SameValues(a, b);
      var p, q := ResolverResult(resolver, OK, a), ResolverResult(resolver, OK, b);
      ConflatedNeverMatch(p, q);
      assert Drawn([p, q], lists);
    }
  }

  lemma DecidingKeysSuffice(lists: set<seq<Answer>>, results: seq<ResolverResult>, expected: seq<string>)
    requires KeysDecide(lists) && Drawn(results, lists)
    ensures ConvergenceSuffices(results, expected)
  {
    hide Summary.Summarizes, IsConsensus, Propagated, Summary.AnswersKey, Summary.SameValues, SetEqual;
    forall s, observed | Summary.Summarizes(results, s) && IsConsensus(results, observed)
      ensures s.convergedPct == 100 && SetEqual(observed, expected) ==> Propagated(results, expected)
    {
      PropagatedIff(results, expected, s, observed);
      SummaryLaws.ConvergenceIsAgreement(results, s);
      if s.convergedPct == 100 {
        var k :| SummaryLaws.AgreeOn(results, k);
        forall q, r | q in results && r in results && q.status.OK? && r.status.OK? ensures Summary.SameValues(q.answers, r.answers) {
          assert Summary.HasKey(q, k) && Summary.HasKey(r, k);
        }
      }
    }
  }

  lemma ConflatedNeverMatch(p: ResolverResult, q: ResolverResult)
    requires p.status.OK? && q.status.OK?
    requires Summary.AnswersKey(p.answers) == Summary.AnswersKey(q.answers) && !Summary.SameValues(p.answers, q.answers)
    ensures IsConsensus([p, q], Text.Sort(Values(q.answers))) && !Propagated([p, q], Text.Sort(Values(q.answers)))
    ensures forall s | Summary.Summarizes([p, q], s) :: s.convergedPct == 100
    ensures !ConvergenceSuffices([p, q], Text.Sort(Values(q.answers)))
  {
    hide Summary.AnswersKey, Propagated, Text.Sort, IsConsensus, Summary.Summarizes;
    var results, observed := [p, q], Text.Sort(Values(q.answers));
    Text.SortSorts(Values(q.answers));
    SecondIsConsensus(p, q);
    PropagatedMeansAllMatch(results, observed);
    assert p in results && multiset(Values(p.answers)) != multiset(observed);
    assert q in results && SummaryLaws.AgreeOn(results, Summary.AnswersKey(p.answers));
    forall s | Summary.Summarizes(results, s) ensures s.convergedPct == 100 {
      SummaryLaws.ConvergenceIsAgreement(results, s);
    }
    SummaryLaws.SummaryExists(results);
    SetEqualIsMultisetEquality(observed, observed);
  }

  // --- The two majorities --------------------------------------------------------------------

  /** The summary's name for what a monitor observed. */
  function NameOf(observed: seq<string>): string {
    if observed == [] then Summary.EMPTY_KEY else Text.Join(observed, ',')
  }

  lemma ObservedName(answers: seq<Answer>)
    ensures NameOf(Text.Sort(Values(answers))) == Summary.AnswersKey(answers)
  {
    Text.SortSorts(Values(answers));
  }

  predicate SomeOK(results: seq<ResolverResult>) { exists r :: r in results && r.status.OK? }

  /** Two OK results are counted together by the monitor exactly when the summary counts them together. */
  ghost predicate SameNames(results: seq<ResolverResult>) {
    forall q, r | q in results && r in results && q.status.OK? && r.status.OK? ::
      BareKey(q.answers) == BareKey(r.answers) <==> Summary.AnswersKey(q.answers) == Summary.AnswersKey(r.answers)
  }

  lemma SameVotes(results: seq<ResolverResult>, r: ResolverResult)
    requires SameNames(results) && r in results && r.status.OK?
    ensures BareVotes(results, BareKey(r.answers)) == Summary.Votes(results, Summary.AnswersKey(r.answers))
    ensures BareKey(r.answers) in BareKeys(results) && Summary.AnswersKey(r.answers) in Summary.Keys(results)
  {
    hide BareKey, Summary.AnswersKey;
    CountMonotone(results, WithBareKey(BareKey(r.answers)), Summary.WithKey(Summary.AnswersKey(r.answers)));
  }

  /** The value a monitor observes is one the summary may take for the majority answer set, if the two
      count the same results together. */
  lemma ConsensusIsPlurality(results: seq<ResolverResult>, observed: seq<string>)
    requires SameNames(results) && IsConsensus(results, observed) && SomeOK(results)
    ensures Summary.Plurality(results, NameOf(observed))
  {
    hide BareKey, Summary.AnswersKey, BareVotes, Summary.Votes, Text.Sort, SameNames;
    var q :| q in results && q.status.OK?;
    assert BareKey(q.answers) in BareKeys(results);
    var k, i: nat :|
      && (forall other | other in BareKeys(results) :: BareVotes(results, other) <= BareVotes(results, k))
      && IsLastWith(results, k, i)
      && observed == Text.Sort(Values(results[i].answers));
    ObservedName(results[i].answers);
    SameVotes(results, results[i]);
    hide NameOf;
    forall other | other in Summary.Keys(results)
      ensures Summary.Votes(results, other) <= Summary.Votes(results, NameOf(observed))
    {
      var r :| r in results && r.status.OK? && Summary.AnswersKey(r.answers) == other;
      SameVotes(results, r);
    }
  }

  /** A non-empty answer list that the monitor counts as if it were empty: one value, the empty string. */
  predicate Blank(answers: seq<Answer>) { answers != [] && BareKey(answers) == "" }

  /** A non-empty answer list that the summary counts as if it were empty. */
  predicate Word(answers: seq<Answer>) { answers != [] && BareKey(answers) == Summary.EMPTY_KEY }

  /** Such lists exist: a TXT record with an empty text, and one that spells the reserved word. */
  lemma SingleBlankOrWord(a: Answer)
    ensures Blank([a]) <==> a.value == ""
    ensures Word([a]) <==> a.value == Summary.EMPTY_KEY
  {
    Summary.SingletonKey(a);
  }

  /** So the set of the empty list and that of an empty text is ambiguous. */
  lemma EmptyTextIsAmbiguous(a: Answer)
    requires a.value == ""
    ensures !Unambiguous({[], [a]})
  {
    SingleBlankOrWord(a);
    assert [] in {[], [a]} && [a] in {[], [a]};
  }

  /** Next to the empty answer list there is none that the monitor mistakes for it, and none that the
      summary mistakes for it unless there is nothing else. */
  ghost predicate Unambiguous(lists: set<seq<Answer>>) {
    [] in lists ==>
      && (forall a | a in lists :: !Blank(a))
      && ((forall a | a in lists :: !Word(a)) || (forall a | a in lists :: a == [] || Word(a)))
  }

  ghost predicate MajoritiesAgree(results: seq<ResolverResult>, observed: seq<string>) {
    IsConsensus(results, observed) && SomeOK(results) ==> Summary.Plurality(results, NameOf(observed))
  }

  /** For answer lists from a given set, the monitor's value is a majority answer set of the summary on
      all results and with all tie-breaks, exactly when the set is unambiguous. */
  lemma MajoritiesAgreeIff(lists: set<seq<Answer>>, resolver: Resolver)
    ensures (forall results, observed | Drawn(results, lists) :: MajoritiesAgree(results, observed)) <==> Unambiguous(lists)
  {
    hide BareKey, Summary.AnswersKey;
    if Unambiguous(lists) {
      forall results, observed | Drawn(results, lists) ensures MajoritiesAgree(results, observed) {
        UnambiguousSuffices(lists, results, observed);
      }
    } else if a :| a in lists && Blank(a) {
      var results, observed := BlankMisleads(resolver, a);
      assert Drawn(results, lists) && !MajoritiesAgree(results, observed);
    } else {
      var w, x :| w in lists && Word(w) && x in lists && x != [] && !Word(x);
      var results, observed := WordMisleads(resolver, w, x);
      assert Drawn(results, lists) && !MajoritiesAgree(results, observed);
    }
  }

  lemma UnambiguousSuffices(lists: set<seq<Answer>>, results: seq<ResolverResult>, observed: seq<string>)
    requires Unambiguous(lists) && Drawn(results, lists)
    ensures MajoritiesAgree(results, observed)
  {
    if IsConsensus(results, observed) && SomeOK(results) {
      if SameNames(results) {
        ConsensusIsPlurality(results, observed);
      } else {
        EmptyNames(lists, results);
        OneName(results, observed);
      }
    }
  }

  /** The only unambiguous way to have different groupings: everything reads like the empty list. */
  lemma EmptyNames(lists: set<seq<Answer>>, results: seq<ResolverResult>)
    requires Unambiguous(lists) && Drawn(results, lists) && !SameNames(results)
    ensures forall r | r in results && r.status.OK? :: Summary.AnswersKey(r.answers) == Summary.EMPTY_KEY
  {
    NamesOf();
    hide BareKey, Summary.AnswersKey;
  }

  lemma NamesOf()
    ensures BareKey([]) == "" && Summary.AnswersKey([]) == Summary.EMPTY_KEY
    ensures forall a: seq<Answer> | a != [] :: Summary.AnswersKey(a) == BareKey(a)
  {
    assert Values([]) == [];
  }

  lemma OneName(results: seq<ResolverResult>, observed: seq<string>)
    requires forall r | r in results && r.status.OK? :: Summary.AnswersKey(r.answers) == Summary.EMPTY_KEY
    requires IsConsensus(results, observed) && SomeOK(results)
    ensures Summary.Plurality(results, NameOf(observed))
  {
    hide Summary.AnswersKey, BareKey, BareVotes, Text.Sort;
    var q :| q in results && q.status.OK?;
    assert BareKey(q.answers) in BareKeys(results);
    var k, i: nat :|
      && (forall other | other in BareKeys(results) :: BareVotes(results, other) <= BareVotes(results, k))
      && IsLastWith(results, k, i)
      && observed == Text.Sort(Values(results[i].answers));
    ObservedName(results[i].answers);
    hide NameOf;
    assert Summary.Keys(results) == {Summary.EMPTY_KEY};
  }

  function Replied(resolver: Resolver, answers: seq<Answer>): ResolverResult { ResolverResult(resolver, OK, answers) }

  /** Two empty lists and a blank one: the monitor counts three alike and shows the last of them, for the
      summary it is outvoted. */
  lemma BlankMisleads(resolver: Resolver, blank: seq<Answer>) returns (results: seq<ResolverResult>, observed: seq<string>)
    requires Blank(blank)
    ensures results == [Replied(resolver, []), Replied(resolver, []), Replied(resolver, blank)]
    ensures !MajoritiesAgree(results, observed)
  {
    var none, last := Replied(resolver, []), Replied(resolver, blank);
    results := [none, none, last];
    observed := Text.Sort(Values(blank));
    NamesOf();
    ObservedName(blank);
    hide BareKey, Summary.AnswersKey, Text.Sort, NameOf;
    assert last in results && none in results;
    CountTriple(none, none, last, Summary.WithKey(Summary.EMPTY_KEY));
    CountTriple(none, none, last, Summary.WithKey(""));
    assert BareKeys(results) == {""};
    assert IsLastWith(results, "", 2);
    hide Count;
    assert Summary.EMPTY_KEY in Summary.Keys(results);
  }

  /** An empty list, one the summary mistakes for it, and a third: tied for the monitor, not for the
      summary. */
  lemma WordMisleads(resolver: Resolver, word: seq<Answer>, other: seq<Answer>)
    returns (results: seq<ResolverResult>, observed: seq<string>)
    requires Word(word) && other != [] && !Blank(other) && !Word(other)
    ensures results == [Replied(resolver, []), Replied(resolver, word), Replied(resolver, other)]
    ensures !MajoritiesAgree(results, observed)
  {
    var none, second, last := Replied(resolver, []), Replied(resolver, word), Replied(resolver, other);
    results := [none, second, last];
    observed := Text.Sort(Values(other));
    var k := BareKey(other);
    NamesOf();
    ObservedName(other);
    hide BareKey, Summary.AnswersKey, Text.Sort, NameOf;
    assert last in results && none in results && second in results;
    CountTriple(none, second, last, Summary.WithKey(Summary.EMPTY_KEY));
    CountTriple(none, second, last, Summary.WithKey(k));
    CountTriple(none, second, last, WithBareKey(""));
    CountTriple(none, second, last, WithBareKey(Summary.EMPTY_KEY));
    CountTriple(none, second, last, WithBareKey(k));
    assert BareKeys(results) == {"", Summary.EMPTY_KEY, k};
    assert IsLastWith(results, k, 2);
    hide Count;
    assert Summary.EMPTY_KEY in Summary.Keys(results);
  }
}
