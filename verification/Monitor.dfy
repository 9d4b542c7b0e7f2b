/** Monitors: one evaluation of a monitor against the results of a live check. */
module Monitor {
  import opened Collections
  import opened Dns
  import opened Settings
  import Summary
  import Text

  const CHANGE := "change"

  datatype EventStatus = Okay | NotPropagated | Changed | Failed

  datatype Event = Event(monitorID: string, status: EventStatus, observed: seq<string>, notified: bool)

  // --- Comparing values ----------------------------------------------------------------------

  predicate SetEqual(a: seq<string>, b: seq<string>) {
    |a| == |b| && Text.Sort(a) == Text.Sort(b)
  }

  /** Despite its name the comparison is one of multisets. */
  lemma SetEqualIsMultisetEquality(a: seq<string>, b: seq<string>)
    ensures SetEqual(a, b) <==> multiset(a) == multiset(b)
  {
    Text.SortDecidesMultiset(a, b);
    if multiset(a) == multiset(b) { PermutationMembers(a, b); }
  }

  /** Equal sets of values are not enough: repetitions count. */
  lemma RepetitionsCount(v: string)
    ensures (set x | x in [v, v]) == (set x | x in [v]) && !SetEqual([v, v], [v])
  {
    assert v in [v, v] && v in [v];
  }

  // --- The observed value --------------------------------------------------------------------

  /** The key under which a result is counted here: the bare join, without a word for "no answers". */
  function BareKey(answers: seq<Answer>): string {
    Text.Join(Text.Sort(Values(answers)), ',')
  }

  predicate HasBareKey(r: ResolverResult, k: string) { r.status.OK? && BareKey(r.answers) == k }

  function WithBareKey(k: string): ResolverResult -> bool {
    (r: ResolverResult) => HasBareKey(r, k)
  }

  function BareVotes(results: seq<ResolverResult>, k: string): nat { Count(results, WithBareKey(k)) }

  function BareKeys(results: seq<ResolverResult>): set<string> {
    set r | r in results && r.status.OK? :: BareKey(r.answers)
  }

  /** `i` is the last result counted under `k`. */
  predicate IsLastWith(results: seq<ResolverResult>, k: string, i: nat) {
    i < |results| && HasBareKey(results[i], k) && forall j | i < j < |results| :: !HasBareKey(results[j], k)
  }

  /** `observed` is a most frequent answer-value list among the OK results, nil without OK results. */
  ghost predicate IsConsensus(results: seq<ResolverResult>, observed: seq<string>) {
    if BareKeys(results) == {} then observed == []
    else exists k, i: nat ::
      && (forall other | other in BareKeys(results) :: BareVotes(results, other) <= BareVotes(results, k))
      && IsLastWith(results, k, i)
      && observed == Text.Sort(Values(results[i].answers))
  }

  ghost predicate CountsVotes(results: seq<ResolverResult>, counts: map<string, nat>) {
    counts.Keys == BareKeys(results) && forall k | k in counts :: counts[k] == BareVotes(results, k)
  }

  /** `last` finds, for each key of `results`, the last of them counted under it. */
  ghost predicate FindsLast(results: seq<ResolverResult>, last: map<string, nat>) {
    last.Keys == BareKeys(results) && forall k | k in last :: IsLastWith(results, k, last[k])
  }

  /** `repr` shows the values of the results found by `last`. */
  ghost predicate Shows(results: seq<ResolverResult>, repr: map<string, seq<string>>, last: map<string, nat>) {
    && (forall k :: k in repr <==> k in last)
    && (forall k | k in last :: last[k] < |results| && repr[k] == Text.Sort(Values(results[last[k]].answers)))
  }

  lemma CountsSnoc(results: seq<ResolverResult>, i: nat, counts: map<string, nat>, key: string)
    requires i < |results| && CountsVotes(results[..i], counts) && key == BareKey(results[i].answers)
    ensures CountsVotes(results[..i + 1],
                        if results[i].status.OK? then counts[key := if key in counts then counts[key] + 1 else 1] else counts)
  {
    BareKeysSnoc(results, i);
    BareVotesSnoc(results, i);
    hide BareKey, BareVotes, BareKeys;
  }

  lemma LastSnoc(results: seq<ResolverResult>, i: nat, last: map<string, nat>, key: string)
    requires i < |results| && FindsLast(results[..i], last) && key == BareKey(results[i].answers)
    ensures FindsLast(results[..i + 1], if results[i].status.OK? then last[key := i] else last)
  {
    var after := if results[i].status.OK? then last[key := i] else last;
    hide BareKey;
    KeysFollow(results, i, last, key);
    hide BareKeys;
    forall k | k in after ensures IsLastWith(results[..i + 1], k, after[k]) {
      if !HasBareKey(results[i], k) { LastStays(results, i, k, last[k]); }
    }
  }

  lemma KeysFollow(results: seq<ResolverResult>, i: nat, last: map<string, nat>, key: string)
    requires i < |results| && last.Keys == BareKeys(results[..i]) && key == BareKey(results[i].answers)
    ensures (if results[i].status.OK? then last[key := i] else last).Keys == BareKeys(results[..i + 1])
  {
    BareKeysSnoc(results, i);
    hide BareKey, BareKeys;
  }

  lemma LastStays(results: seq<ResolverResult>, i: nat, k: string, j: nat)
    requires i < |results| && IsLastWith(results[..i], k, j) && !HasBareKey(results[i], k)
    ensures IsLastWith(results[..i + 1], k, j)
  {
    hide HasBareKey;
  }

  lemma ShowsSnoc(results: seq<ResolverResult>, i: nat, repr: map<string, seq<string>>, last: map<string, nat>, key: string)
    requires i < |results| && Shows(results, repr, last)
    ensures Shows(results, repr[key := Text.Sort(Values(results[i].answers))], last[key := i])
  {
    hide Text.Sort;
  }

  method Consensus(results: seq<ResolverResult>) returns (observed: seq<string>)
    ensures IsConsensus(results, observed)
  {
    hide BareKey;
    var counts: map<string, nat>, repr: map<string, seq<string>> := map[], map[];
    ghost var last: map<string, nat> := map[];
    assert CountsVotes(results[..0], counts) && FindsLast(results[..0], last) && Shows(results, repr, last);
    hide CountsVotes, FindsLast, Shows, Text.Sort, Text.Join;
    for i := 0 to |results|
      invariant CountsVotes(results[..i], counts) && FindsLast(results[..i], last) && Shows(results, repr, last)
    {
      var values := Text.Sort(Values(results[i].answers));
      var key := BareKey(results[i].answers);
      CountsSnoc(results, i, counts, key);
      LastSnoc(results, i, last, key);
      ShowsSnoc(results, i, repr, last, key);
      if results[i].status.OK? {
        counts := counts[key := if key in counts then counts[key] + 1 else 1];
        repr := repr[key := values];
        last := last[key := i];
      }
    }
    assert results[..|results|] == results;
    CountsArePositive(results, counts);
    var best, n := Summary.Majority(counts);
    observed := if best in repr then repr[best] else [];
    MajorityIsConsensus(results, counts, repr, last, best, n);
  }

  lemma CountsArePositive(results: seq<ResolverResult>, counts: map<string, nat>)
    requires CountsVotes(results, counts)
    ensures forall k | k in counts :: counts[k] > 0
  {
    forall k | k in counts ensures counts[k] > 0 { BareVotesPositive(results, k); }
  }

  lemma MajorityIsConsensus(
    results: seq<ResolverResult>, counts: map<string, nat>, repr: map<string, seq<string>>, last: map<string, nat>,
    best: string, n: nat)
    requires CountsVotes(results, counts) && FindsLast(results, last) && Shows(results, repr, last)
    requires forall k | k in counts :: 0 < counts[k] <= n
    requires counts != map[] ==> best in counts && n == counts[best]
    ensures IsConsensus(results, if best in repr then repr[best] else [])
  {
    hide BareKey, BareVotes, BareKeys, Text.Sort;
    if counts == map[] {
      assert counts.Keys == {};
    } else {
      assert counts.Keys == BareKeys(results);
      MostFrequent(results, counts, best, n);
      assert IsLastWith(results, best, last[best]);
    }
  }

  lemma MostFrequent(results: seq<ResolverResult>, counts: map<string, nat>, best: string, n: nat)
    requires counts.Keys == BareKeys(results) && best in counts && n == counts[best]
    requires forall k | k in counts :: counts[k] == BareVotes(results, k) <= n
    ensures forall other | other in BareKeys(results) :: BareVotes(results, other) <= BareVotes(results, best)
  {
    forall other | other in BareKeys(results) ensures BareVotes(results, other) <= BareVotes(results, best) {
      assert other in counts;
    }
  }

  lemma BareVotesPositive(results: seq<ResolverResult>, k: string)
    ensures BareVotes(results, k) > 0 <==> k in BareKeys(results)
  {
    CountZero(results, WithBareKey(k));
  }

  lemma BareKeysSnoc(results: seq<ResolverResult>, i: nat)
    requires i < |results|
    ensures BareKeys(results[..i + 1]) ==
            BareKeys(results[..i]) + if results[i].status.OK? then {BareKey(results[i].answers)} else {}
  {
    assert results[..i + 1] == results[..i] + [results[i]];
  }

  lemma BareVotesSnoc(results: seq<ResolverResult>, i: nat)
    requires i < |results|
    ensures forall k :: BareVotes(results[..i + 1], k) ==
                        BareVotes(results[..i], k) + if HasBareKey(results[i], k) then 1 else 0
    ensures forall k | k !in BareKeys(results[..i]) :: BareVotes(results[..i], k) == 0
  {
    forall k
      ensures BareVotes(results[..i + 1], k) == BareVotes(results[..i], k) + if HasBareKey(results[i], k) then 1 else 0
    {
      CountSnoc(results, i, WithBareKey(k));
    }
    forall k | k !in BareKeys(results[..i]) ensures BareVotes(results[..i], k) == 0 {
      BareVotesPositive(results[..i], k);
    }
  }

  // --- What an evaluation means --------------------------------------------------------------

  predicate Matches(r: ResolverResult, expected: seq<string>) {
    r.status.OK? && SetEqual(Values(r.answers), expected)
  }

  function Matching(expected: seq<string>): ResolverResult -> bool {
    (r: ResolverResult) => Matches(r, expected)
  }

  /** Somebody responded, and every responder returned the expected values. */
  predicate Propagated(results: seq<ResolverResult>, expected: seq<string>) {
    && Count(results, Summary.IsResponder) > 0
    && Count(results, Matching(expected)) == Count(results, Summary.IsResponder)
  }

  /** One run of a change monitor whose check succeeded: `before` and `after` are its baselines. */
  ghost predicate ChangeRun(before: seq<string>, results: seq<ResolverResult>, ev: Event, after: seq<string>) {
    && IsConsensus(results, ev.observed)
    && if before == [] then ev.status == Okay && after == ev.observed
       else if SetEqual(ev.observed, before) then ev.status == Okay && after == before
       else ev.status == Changed && after == ev.observed
  }

  /** One run of a propagation monitor whose check succeeded. */
  ghost predicate PropagationRun(expected: seq<string>, results: seq<ResolverResult>, ev: Event, after: seq<string>) {
    && IsConsensus(results, ev.observed)
    && after == expected
    && ev.status == if Propagated(results, expected) then Okay else NotPropagated
  }

  /** One run of a monitor; `None` stands for a failed check. */
  ghost predicate MonitorRun(
    kind: string, before: seq<string>, outcome: Option<seq<ResolverResult>>, ev: Event, after: seq<string>)
  {
    match outcome
    case None => ev.status == Failed && ev.observed == [] && !ev.notified && after == before
    case Some(results) =>
      if kind == CHANGE then ChangeRun(before, results, ev, after) else PropagationRun(before, results, ev, after)
  }

  /** The run stores its observation as the new baseline. */
  predicate Rebaselines(kind: string, before: seq<string>, ev: Event) {
    kind == CHANGE && (ev.status == Changed || (ev.status == Okay && before == []))
  }

  predicate Alerting(status: EventStatus) { status == Changed || status == NotPropagated }

  function EnabledAs(id: string): Channel -> bool { (c: Channel) => c.id == id && c.enabled }

  /** The first enabled channel with the given ID. */
  function BoundChannel(channels: seq<Channel>, id: string): Option<Channel> { First(channels, EnabledAs(id)) }

  /** The channel at place `i` is enabled and has the ID, and no earlier one does. */
  predicate Binds(channels: seq<Channel>, id: string, i: int) {
    && 0 <= i < |channels| && channels[i].id == id && channels[i].enabled
    && forall j | 0 <= j < i :: !(channels[j].id == id && channels[j].enabled)
  }

  lemma BoundChannelIs(channels: seq<Channel>, id: string)
    ensures forall c :: BoundChannel(channels, id) == Some(c) <==> exists i :: Binds(channels, id, i) && channels[i] == c
    ensures BoundChannel(channels, id) == None <==> forall i | 0 <= i < |channels| :: !(channels[i].id == id && channels[i].enabled)
  {
    forall c ensures BoundChannel(channels, id) == Some(c) <==> exists i :: Binds(channels, id, i) && channels[i] == c {
      FirstAt(channels, EnabledAs(id), c);
      assert forall i :: Binds(channels, id, i) <==> IsFirst(channels, EnabledAs(id), i);
    }
    FirstAt(channels, EnabledAs(id), Channel("", false));
  }

  /** What an evaluation sends: at most one message, to the bound channel, and only on an alert. */
  ghost predicate Notifies(
    ev: Event, channelID: string, channels: Option<seq<Channel>>, before: seq<Channel>, after: seq<Channel>)
  {
    var target := if channelID == "" || channels == None then None else BoundChannel(channels.value, channelID);
    && after == (if Alerting(ev.status) && target.Some? then before + [target.value] else before)
    && (ev.notified ==> after != before)
  }

  // --- The evaluator -------------------------------------------------------------------------

  class Monitor {
    const id: string
    const kind: string
    const channelID: string
    var expected: seq<string>

    constructor (id: string, kind: string, channelID: string, expected: seq<string>)
      ensures this.id == id && this.kind == kind && this.channelID == channelID && this.expected == expected
    {
      this.id, this.kind, this.channelID, this.expected := id, kind, channelID, expected;
    }
  }

  /** The stored changelog and baselines, and the notification channels (`None`: unreadable). */
  class Store {
    var events: seq<Event>
    var baselines: map<string, seq<string>>
    var channels: Option<seq<Channel>>

    constructor (channels: Option<seq<Channel>>)
      ensures events == [] && baselines == map[] && this.channels == channels
    {
      events, baselines, this.channels := [], map[], channels;
    }
  }

  class Notifier {
    var sent: seq<Channel>

    constructor ()
      ensures sent == []
    {
      sent := [];
    }

    /** Delivery may succeed or fail. */
    method Send(channel: Channel) returns (ok: bool)
      modifies this
      ensures sent == old(sent) + [channel]
    {
      sent := sent + [channel];
      ok := *;
    }
  }

  class Evaluator {
    const store: Store
    const notifier: Notifier

    constructor (store: Store, notifier: Notifier)
      ensures this.store == store && this.notifier == notifier
    {
      this.store, this.notifier := store, notifier;
    }

    /** Evaluates a monitor once. */
    method Run(m: Monitor, outcome: Option<seq<ResolverResult>>) returns (ev: Event)
      modifies m, store, notifier
      ensures store.events == old(store.events) + [ev] && ev.monitorID == m.id
      ensures MonitorRun(m.kind, old(m.expected), outcome, ev, m.expected)
      ensures Notifies(ev, m.channelID, store.channels, old(notifier.sent), notifier.sent)
      ensures store.channels == old(store.channels)
      ensures store.baselines ==
              if Rebaselines(m.kind, old(m.expected), ev) then old(store.baselines)[m.id := m.expected]
              else old(store.baselines)
      ensures m.expected != old(m.expected) ==> m.id in store.baselines && store.baselines[m.id] == m.expected
      ensures outcome.Some? && m.kind == "change" && old(m.expected) == [] ==>
                m.id in store.baselines && store.baselines[m.id] == m.expected
      ensures outcome.None? || m.kind != "change" ==> store.baselines == old(store.baselines)
    {
      ev := Event(m.id, Failed, [], false);
      if outcome.Some? {
        if m.kind == CHANGE {
          ev := EvaluateChange(m, outcome.value, ev);
        } else {
          ev := EvaluatePropagation(m, outcome.value, ev);
        }
      }
      store.events := store.events + [ev];
    }

    method EvaluateChange(m: Monitor, results: seq<ResolverResult>, draft: Event) returns (ev: Event)
      requires !draft.notified
      modifies m, store, notifier
      ensures ev.monitorID == draft.monitorID
      ensures ChangeRun(old(m.expected), results, ev, m.expected)
      ensures Notifies(ev, m.channelID, store.channels, old(notifier.sent), notifier.sent)
      ensures store.events == old(store.events) && store.channels == old(store.channels)
      ensures store.baselines ==
              if old(m.expected) == [] || ev.status == Changed then old(store.baselines)[m.id := m.expected]
              else old(store.baselines)
    {
      var observed := Consensus(results);
      ev := draft.(observed := observed);
      if |m.expected| == 0 {
        m.expected := observed;
        store.baselines := store.baselines[m.id := observed];
        ev := ev.(status := Okay);
      } else if !SetEqual(observed, m.expected) {
        ev := ev.(status := Changed);
        m.expected := observed;
        store.baselines := store.baselines[m.id := observed];
        var notified := MaybeNotify(m);
        ev := ev.(notified := notified);
      } else {
        ev := ev.(status := Okay);
      }
    }

    method EvaluatePropagation(m: Monitor, results: seq<ResolverResult>, draft: Event) returns (ev: Event)
      requires !draft.notified
      modifies notifier
      ensures ev.monitorID == draft.monitorID
      ensures PropagationRun(m.expected, results, ev, m.expected)
      ensures Notifies(ev, m.channelID, store.channels, old(notifier.sent), notifier.sent)
    {
      var responded, matched := 0, 0;
      for i := 0 to |results|
        invariant responded == Count(results[..i], Summary.IsResponder)
        invariant matched == Count(results[..i], Matching(m.expected))
        invariant notifier.sent == old(notifier.sent)
      {
        CountSnoc(results, i, Summary.IsResponder);
        CountSnoc(results, i, Matching(m.expected));
        match results[i].status {
          case OK =>
            responded := responded + 1;
            if SetEqual(Values(results[i].answers), m.expected) {
              matched := matched + 1;
            }
          case NXDomain =>
            responded := responded + 1;
          case _ =>
        }
      }
      assert results[..|results|] == results;
      var observed := Consensus(results);
      ev := draft.(observed := observed);
      if responded > 0 && matched == responded {
        ev := ev.(status := Okay);
        return;
      }
      ev := ev.(status := NotPropagated);
      var notified := MaybeNotify(m);
      ev := ev.(notified := notified);
    }

    /** Delivers to the first enabled channel with the ID the monitor names, if any. */
    method MaybeNotify(m: Monitor) returns (notified: bool)
      modifies notifier
      ensures var target := if m.channelID == "" || store.channels == None then None
                            else BoundChannel(store.channels.value, m.channelID);
              && notifier.sent == (if target.Some? then old(notifier.sent) + [target.value] else old(notifier.sent))
              && (notified ==> target.Some?)
    {
      if m.channelID == "" || store.channels == None {
        return false;
      }
      var channels := store.channels.value;
      for i := 0 to |channels|
        invariant BoundChannel(channels, m.channelID) == BoundChannel(channels[i..], m.channelID)
        invariant notifier.sent == old(notifier.sent)
      {
        assert channels[i..][1..] == channels[i + 1..];
        if channels[i].id == m.channelID && channels[i].enabled {
          notified := notifier.Send(channels[i]);
          return;
        }
      }
      return false;
    }
  }
}
