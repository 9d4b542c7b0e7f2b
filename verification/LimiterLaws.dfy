/** The limiter over whole runs: the rate it enforces, what eviction changes, and when. */
module LimiterLaws {
  import opened Collections
  import opened Limiter

  // --- The rate bound ------------------------------------------------------------------------

  /** From any valid state, a key is granted no more calls than it has tokens and regains. */
  lemma {:induction false} GrantsAreBounded(limits: Limits, buckets: map<string, Bucket>, run: seq<Timed>, now: real, key: string)
    requires Sensible(limits) && Valid(limits, buckets, now) && Ordered(run, now) && NeverCleared(run, key)
    requires RefillsBeforeEviction(limits) || WithoutEvictions(run)
    ensures Grants(Answers(limits, buckets, run), key) as real
         <= Available(limits, buckets, key, now) + Refill(limits, End(run, now) - now)
    decreases |run|
  {
    AvailableInRange(limits, buckets, key, now);
    RefillZero(limits);
    if run != [] {
      var e, rest := run[0], run[1..];
      var next := Next(limits, buckets, e);
      NextIsValid(limits, buckets, e, now);
      GrantsAreBounded(limits, next, rest, e.at, key);
      RefillComposes(limits, buckets, key, now, e.at);
      assert Valid(limits, buckets, e.at);
      assert e in run;
      NextAvailable(limits, buckets, e, key);
      assert End(rest, e.at) == End(run, now);
      RefillAdds(limits, e.at - now, End(run, now) - e.at);
      assert (e.at - now) + (End(run, now) - e.at) == End(run, now) - now;
      hide Refill, Available, Next;
    }
  }

  lemma {:induction false} AnswersSplit(limits: Limits, buckets: map<string, Bucket>, a: seq<Timed>, b: seq<Timed>)
    ensures After(limits, buckets, a + b) == After(limits, After(limits, buckets, a), b)
    ensures Answers(limits, buckets, a + b) == Answers(limits, buckets, a) + Answers(limits, After(limits, buckets, a), b)
    decreases |a|
  {
    if a == [] {
      assert a + b == b;
    } else {
      assert (a + b)[0] == a[0] && (a + b)[1..] == a[1..] + b;
      AnswersSplit(limits, Next(limits, buckets, a[0]), a[1..], b);
    }
  }

  lemma {:induction false} GrantsSplit(a: seq<(string, bool)>, b: seq<(string, bool)>, key: string)
    ensures Grants(a + b, key) == Grants(a, key) + Grants(b, key)
  {
    if a == [] {
      assert a + b == b;
    } else {
      assert (a + b)[1..] == a[1..] + b;
      GrantsSplit(a[1..], b, key);
    }
  }

  lemma {:induction false} OrderedSplit(a: seq<Timed>, b: seq<Timed>, now: real)
    requires Ordered(a + b, now)
    ensures Ordered(a, now) && Ordered(b, End(a, now))
  {
    if a == [] {
      assert a + b == b;
    } else {
      assert (a + b)[0] == a[0] && (a + b)[1..] == a[1..] + b;
      OrderedSplit(a[1..], b, a[0].at);
    }
  }

  /** The calls of `key` granted in a non-empty stretch of a run that starts after `before`. */
  function GrantedIn(limits: Limits, before: seq<Timed>, window: seq<Timed>, key: string): nat {
    Grants(Answers(limits, After(limits, map[], before), window), key)
  }

  /** In every window of every run in which the key is not reset, however calls and evictions are
      interleaved, at most the burst and what the rate gives back in the window is granted. */
  ghost predicate RateBound(limits: Limits, key: string) {
    forall before: seq<Timed>, window: seq<Timed>, start: real {:trigger GrantedIn(limits, before, window, key), Ordered(before, start)} ::
      Ordered(before, start) && window != [] && Ordered(window, End(before, start)) && NeverCleared(window, key) ==>
        GrantedIn(limits, before, window, key) as real
        <= Burst(limits) + Refill(limits, End(window, start) - window[0].at)
  }

  /** For a limiter that ever permits anything, the bound holds exactly when an idle bucket is full
      again by the time it can be evicted. */
  lemma RateBoundIff(limits: Limits, key: string)
    requires limits.burst >= 1
    ensures RateBound(limits, key) <==> limits.burst <= 5 * limits.ratePerMin
  {
    if RefillsBeforeEviction(limits) {
      forall before: seq<Timed>, window: seq<Timed>, start: real {:trigger GrantedIn(limits, before, window, key), Ordered(before, start)}
        | Ordered(before, start) && window != [] && Ordered(window, End(before, start)) && NeverCleared(window, key)
        ensures GrantedIn(limits, before, window, key) as real
             <= Burst(limits) + Refill(limits, End(window, start) - window[0].at)
      {
        WindowBound(limits, before, window, start, key);
      }
    } else {
      var at := ShortOfRefill(limits);
      EvictionDoublesBurst(limits, key, at);
      BurstTwiceShape(limits, key, at);
      var window := BurstTwice(limits, key, at);
      assert Ordered([], 0.0);
      assert GrantedIn(limits, [], window, key) as real > Burst(limits) + Refill(limits, End(window, 0.0) - window[0].at);
    }
  }

  lemma WindowBound(limits: Limits, before: seq<Timed>, window: seq<Timed>, start: real, key: string)
    requires Sensible(limits) && RefillsBeforeEviction(limits)
    requires Ordered(before, start) && window != [] && Ordered(window, End(before, start)) && NeverCleared(window, key)
    ensures GrantedIn(limits, before, window, key) as real
         <= Burst(limits) + Refill(limits, End(window, start) - window[0].at)
  {
    var buckets := After(limits, map[], before);
    AfterIsValid(limits, map[], before, start);
    assert Valid(limits, buckets, window[0].at);
    GrantsAreBounded(limits, buckets, window, window[0].at, key);
    AvailableInRange(limits, buckets, key, window[0].at);
  }

  // --- Where the bound fails -----------------------------------------------------------------

  /** `n` calls at once. */
  function Calls(key: string, n: nat, at: real): (run: seq<Timed>)
    ensures |run| == n && forall i | 0 <= i < n :: run[i] == Timed(at, Call(key))
  {
    if n == 0 then [] else [Timed(at, Call(key))] + Calls(key, n - 1, at)
  }

  /** A full burst, an eviction, and another full burst. */
  function BurstTwice(limits: Limits, key: string, at: real): seq<Timed>
    requires limits.burst >= 1
  {
    Calls(key, limits.burst, 0.0) + [Timed(at, Evict(at))] + Calls(key, limits.burst, at)
  }

  /** A moment past the eviction period at which an emptied bucket is not full yet. */
  lemma ShortOfRefill(limits: Limits) returns (at: real)
    requires limits.burst >= 1 && !RefillsBeforeEviction(limits)
    ensures at > STALE_AFTER && Refill(limits, at) < Burst(limits)
  {
    if limits.ratePerMin <= 0 {
      at := STALE_AFTER + 1.0;
    } else {
      var spare := Burst(limits) - Refill(limits, STALE_AFTER);
      at := STALE_AFTER + spare / (2.0 * Rate(limits));
      RefillAdds(limits, STALE_AFTER, spare / (2.0 * Rate(limits)));
      assert Refill(limits, spare / (2.0 * Rate(limits))) == spare / 2.0;
    }
  }

  /** A call at the moment of the last refill. */
  lemma CallNow(limits: Limits, buckets: map<string, Bucket>, key: string, at: real)
    ensures var available := Available(limits, buckets, key, at);
            && available <= Burst(limits)
            && Available(limits, Next(limits, buckets, Timed(at, Call(key))), key, at)
               == Min(Burst(limits), if available >= 1.0 then available - 1.0 else available)
  {
    RefillZero(limits);
    hide Refill;
  }

  /** Calls at once are granted as long as there are tokens. */
  lemma {:induction false} CallsGranted(limits: Limits, buckets: map<string, Bucket>, key: string, n: nat, at: real)
    requires Available(limits, buckets, key, at) >= n as real
    ensures Grants(Answers(limits, buckets, Calls(key, n, at)), key) == n
    ensures var after := After(limits, buckets, Calls(key, n, at));
            && Available(limits, after, key, at) == Available(limits, buckets, key, at) - n as real
            && (n > 0 ==> key in after && after[key].lastRefill == at)
    decreases n
  {
    if n > 0 {
      var run, next := Calls(key, n, at), Next(limits, buckets, Timed(at, Call(key)));
      assert run[0] == Timed(at, Call(key)) && run[1..] == Calls(key, n - 1, at);
      CallNow(limits, buckets, key, at);
      CallsGranted(limits, next, key, n - 1, at);
      hide Refill;
    }
  }

  /** With fewer tokens than calls at once, some call is denied. */
  lemma {:induction false} CallsDenied(limits: Limits, buckets: map<string, Bucket>, key: string, n: nat, at: real)
    requires n > 0 && Available(limits, buckets, key, at) < n as real
    ensures Grants(Answers(limits, buckets, Calls(key, n, at)), key) < n
    decreases n
  {
    var run, next := Calls(key, n, at), Next(limits, buckets, Timed(at, Call(key)));
    assert run[0] == Timed(at, Call(key)) && run[1..] == Calls(key, n - 1, at);
    CallNow(limits, buckets, key, at);
    if n == 1 {
      assert Calls(key, 0, at) == [];
    } else if Available(limits, buckets, key, at) >= 1.0 {
      CallsDenied(limits, next, key, n - 1, at);
    } else {
      CallsDenied(limits, next, key, n - 1, at);
    }
    hide Refill;
  }

  lemma {:induction false} CallsOrdered(key: string, n: nat, at: real, rest: seq<Timed>, start: real)
    requires start <= at && Ordered(rest, at)
    ensures Ordered(Calls(key, n, at) + rest, start)
    decreases n
  {
    var run := Calls(key, n, at) + rest;
    if n == 0 {
      assert run == rest;
      if rest != [] { assert start <= rest[0].at; }
    } else {
      assert run[1..] == Calls(key, n - 1, at) + rest;
      CallsOrdered(key, n - 1, at, rest, at);
    }
  }

  lemma BurstTwiceShape(limits: Limits, key: string, at: real)
    requires limits.burst >= 1 && at >= 0.0
    ensures var run := BurstTwice(limits, key, at);
            run != [] && run[0].at == 0.0 && End(run, 0.0) == at && Ordered(run, 0.0) && NeverCleared(run, key)
  {
    var evict, second := Timed(at, Evict(at)), Calls(key, limits.burst, at);
    CallsOrdered(key, limits.burst, at, [], at);
    assert second + [] == second;
    assert ([evict] + second)[1..] == second;
    CallsOrdered(key, limits.burst, 0.0, [evict] + second, 0.0);
    assert Calls(key, limits.burst, 0.0) + ([evict] + second) == BurstTwice(limits, key, at);
  }

  /** Both bursts are granted in full: the eviction turned an emptied bucket into a full one. */
  lemma EvictionDoublesBurst(limits: Limits, key: string, at: real)
    requires limits.burst >= 1 && at > STALE_AFTER
    ensures Grants(Answers(limits, map[], BurstTwice(limits, key, at)), key) == 2 * limits.burst
  {
    var first, evict, second := Calls(key, limits.burst, 0.0), [Timed(at, Evict(at))], Calls(key, limits.burst, at);
    CallsGranted(limits, map[], key, limits.burst, 0.0);
    var spent := After(limits, map[], first);
    AnswersSplit(limits, map[], first, evict);
    AnswersSplit(limits, map[], first + evict, second);
    var full := Next(limits, spent, evict[0]);
    assert After(limits, spent, evict) == full && Answers(limits, spent, evict) == [] by { assert evict[1..] == []; }
    assert key !in full;
    CallsGranted(limits, full, key, limits.burst, at);
    GrantsSplit(Answers(limits, map[], first + evict), Answers(limits, full, second), key);
    assert Answers(limits, map[], first) + [] == Answers(limits, map[], first);
  }

  // --- Eviction against no eviction ----------------------------------------------------------

  function DropEvictions(run: seq<Timed>): seq<Timed> {
    if run == [] then [] else (if run[0].event.Evict? then [] else [run[0]]) + DropEvictions(run[1..])
  }

  /** Every key can spend the same. */
  ghost predicate Alike(limits: Limits, a: map<string, Bucket>, b: map<string, Bucket>, now: real) {
    && Valid(limits, a, now) && Valid(limits, b, now)
    && forall key :: Available(limits, a, key, now) == Available(limits, b, key, now)
  }

  lemma AlikeLater(limits: Limits, a: map<string, Bucket>, b: map<string, Bucket>, now: real, later: real)
    requires Sensible(limits) && Alike(limits, a, b, now) && now <= later
    ensures Alike(limits, a, b, later)
  {
    forall key ensures Available(limits, a, key, later) == Available(limits, b, key, later) {
      RefillComposes(limits, a, key, now, later);
      RefillComposes(limits, b, key, now, later);
    }
  }

  lemma AlikeNext(limits: Limits, a: map<string, Bucket>, b: map<string, Bucket>, e: Timed)
    requires Sensible(limits) && Alike(limits, a, b, e.at) && !e.event.Evict?
    ensures Alike(limits, Next(limits, a, e), Next(limits, b, e), e.at)
  {
    NextIsValid(limits, a, e, e.at);
    NextIsValid(limits, b, e, e.at);
    forall key ensures Available(limits, Next(limits, a, e), key, e.at) == Available(limits, Next(limits, b, e), key, e.at) {
      NextAvailable(limits, a, e, key);
      NextAvailable(limits, b, e, key);
    }
  }

  lemma AlikeEvicted(limits: Limits, a: map<string, Bucket>, b: map<string, Bucket>, e: Timed)
    requires Sensible(limits) && RefillsBeforeEviction(limits) && Alike(limits, a, b, e.at)
    requires e.event.Evict? && e.event.readAt <= e.at
    ensures Alike(limits, Next(limits, a, e), b, e.at)
  {
    NextIsValid(limits, a, e, e.at);
    forall key ensures Available(limits, Next(limits, a, e), key, e.at) == Available(limits, b, key, e.at) {
      NextAvailable(limits, a, e, key);
    }
  }

  /** From alike states a run gets the same answers with its evictions as without them. */
  lemma {:induction false} AlikeAnswers(limits: Limits, a: map<string, Bucket>, b: map<string, Bucket>, run: seq<Timed>, now: real)
    requires Sensible(limits) && Alike(limits, a, b, now) && Ordered(run, now)
    requires RefillsBeforeEviction(limits) || WithoutEvictions(run)
    ensures Answers(limits, a, run) == Answers(limits, b, DropEvictions(run))
    decreases |run|
  {
    if run != [] {
      var e := run[0];
      assert e in run;
      AlikeLater(limits, a, b, now, e.at);
      if e.event.Evict? {
        AlikeEvicted(limits, a, b, e);
        AlikeAnswers(limits, Next(limits, a, e), b, run[1..], e.at);
        assert DropEvictions(run) == DropEvictions(run[1..]);
      } else {
        AlikeNext(limits, a, b, e);
        AlikeAnswers(limits, Next(limits, a, e), Next(limits, b, e), run[1..], e.at);
        assert DropEvictions(run) == [e] + DropEvictions(run[1..]);
        assert DropEvictions(run)[1..] == DropEvictions(run[1..]);
      }
      hide Next, Available;
    }
  }

  /** No run can tell an evicting limiter from one that never evicts. */
  ghost predicate EvictionUnobservable(limits: Limits) {
    forall run: seq<Timed>, start: real :: Ordered(run, start) ==> Answers(limits, map[], run) == Answers(limits, map[], DropEvictions(run))
  }

  /** For a limiter that ever permits anything, eviction is unobservable exactly under the condition
      of the rate bound. */
  lemma EvictionUnobservableIff(limits: Limits)
    requires limits.burst >= 1
    ensures EvictionUnobservable(limits) <==> limits.burst <= 5 * limits.ratePerMin
  {
    if RefillsBeforeEviction(limits) {
      forall run: seq<Timed>, start: real | Ordered(run, start)
        ensures Answers(limits, map[], run) == Answers(limits, map[], DropEvictions(run))
      {
        AlikeAnswers(limits, map[], map[], run, start);
      }
    } else {
      var at := ShortOfRefill(limits);
      var run := BurstTwice(limits, "", at);
      BurstTwiceShape(limits, "", at);
      EvictionDoublesBurst(limits, "", at);
      KeptBucketDenies(limits, "", at);
      assert Ordered(run, 0.0) && Answers(limits, map[], run) != Answers(limits, map[], DropEvictions(run));
    }
  }

  lemma {:induction false} DropEvictionsSplit(a: seq<Timed>, b: seq<Timed>)
    ensures DropEvictions(a + b) == DropEvictions(a) + DropEvictions(b)
    ensures WithoutEvictions(a) ==> DropEvictions(a) == a
  {
    if a == [] {
      assert a + b == b;
    } else {
      assert (a + b)[1..] == a[1..] + b;
      assert a == [a[0]] + a[1..];
      DropEvictionsSplit(a[1..], b);
    }
  }

  /** Without the eviction, part of the second burst is denied. */
  lemma KeptBucketDenies(limits: Limits, key: string, at: real)
    requires limits.burst >= 1 && at > STALE_AFTER && Refill(limits, at) < Burst(limits)
    ensures Grants(Answers(limits, map[], DropEvictions(BurstTwice(limits, key, at))), key) < 2 * limits.burst
  {
    var first, evict, second := Calls(key, limits.burst, 0.0), [Timed(at, Evict(at))], Calls(key, limits.burst, at);
    DropEvictionsSplit(first + evict, second);
    DropEvictionsSplit(first, evict);
    DropEvictionsSplit(second, []);
    assert DropEvictions(evict) == [] by { assert evict[1..] == []; }
    assert DropEvictions(BurstTwice(limits, key, at)) == first + second;
    CallsGranted(limits, map[], key, limits.burst, 0.0);
    var spent := After(limits, map[], first);
    AnswersSplit(limits, map[], first, second);
    GrantsSplit(Answers(limits, map[], first), Answers(limits, spent, second), key);
    EmptiedBucket(limits, spent, key, at);
    CallsDenied(limits, spent, key, limits.burst, at);
  }

  lemma EmptiedBucket(limits: Limits, buckets: map<string, Bucket>, key: string, at: real)
    requires limits.burst >= 1 && Refill(limits, at) < Burst(limits)
    requires key in buckets && buckets[key].lastRefill == 0.0 && Available(limits, buckets, key, 0.0) == 0.0
    ensures Available(limits, buckets, key, at) < Burst(limits)
  {
    RefillZero(limits);
    hide Refill;
  }

  // --- Denied and well-spaced calls ----------------------------------------------------------

  /** A denied call does not change any later answer. */
  lemma DenialIsInvisible(limits: Limits, buckets: map<string, Bucket>, e: Timed, run: seq<Timed>)
    requires Sensible(limits) && Valid(limits, buckets, e.at) && e.event.Call? && Ordered(run, e.at)
    requires RefillsBeforeEviction(limits) || WithoutEvictions(run)
    requires Available(limits, buckets, e.event.key, e.at) < 1.0
    ensures Answers(limits, Next(limits, buckets, e), run) == Answers(limits, buckets, run)
  {
    NextIsValid(limits, buckets, e, e.at);
    forall key ensures Available(limits, Next(limits, buckets, e), key, e.at) == Available(limits, buckets, key, e.at) {
      NextAvailable(limits, buckets, e, key);
    }
    AlikeAnswers(limits, Next(limits, buckets, e), buckets, run, e.at);
    AlikeAnswers(limits, buckets, buckets, run, e.at);
  }

  /** Calls of `key` come at least one token's time apart. */
  predicate Spaced(limits: Limits, run: seq<Timed>, key: string, last: Option<real>) {
    run == [] ||
    if run[0].event == Call(key) then
      (last.Some? ==> Refill(limits, run[0].at - last.value) >= 1.0) && Spaced(limits, run[1..], key, Some(run[0].at))
    else Spaced(limits, run[1..], key, last)
  }

  /** What a key called last at `last` has at least. */
  function Floor(limits: Limits, last: Option<real>, now: real): real {
    match last
    case None => Burst(limits)
    case Some(t) => Min(Burst(limits), Refill(limits, now - t))
  }

  /** Calls at least one token's time apart are never denied, whatever else goes on and even if
      eviction is observable. */
  lemma {:induction false} SpacedCallsPass(
    limits: Limits, buckets: map<string, Bucket>, run: seq<Timed>, now: real, key: string, last: Option<real>)
    requires Sensible(limits) && limits.burst >= 1 && Valid(limits, buckets, now) && Ordered(run, now)
    requires Spaced(limits, run, key, last)
    requires Available(limits, buckets, key, now) >= Floor(limits, last, now)
    ensures forall answer | answer in Answers(limits, buckets, run) && answer.0 == key :: answer.1
    decreases |run|
  {
    if run != [] {
      var e := run[0];
      var next := Next(limits, buckets, e);
      NextIsValid(limits, buckets, e, now);
      FloorHolds(limits, buckets, e, now, key, last);
      SpacedCallsPass(limits, next, run[1..], e.at, key, if e.event == Call(key) then Some(e.at) else last);
      hide Next, Available, Refill;
    }
  }

  lemma FloorHolds(limits: Limits, buckets: map<string, Bucket>, e: Timed, now: real, key: string, last: Option<real>)
    requires Sensible(limits) && limits.burst >= 1 && Valid(limits, buckets, now) && now <= e.at
    requires Available(limits, buckets, key, now) >= Floor(limits, last, now)
    requires e.event == Call(key) && last.Some? ==> Refill(limits, e.at - last.value) >= 1.0
    ensures e.event == Call(key) ==> Available(limits, buckets, key, e.at) >= 1.0
    ensures Available(limits, Next(limits, buckets, e), key, e.at) >=
            Floor(limits, if e.event == Call(key) then Some(e.at) else last, e.at)
  {
    RefillZero(limits);
    RefillComposes(limits, buckets, key, now, e.at);
    RefillGrows(limits, 0.0, e.at - now);
    if last.Some? {
      RefillAdds(limits, now - last.value, e.at - now);
      assert (now - last.value) + (e.at - now) == e.at - last.value;
    }
    assert Available(limits, buckets, key, e.at) >= Floor(limits, last, e.at);
    assert Valid(limits, buckets, e.at);
    AvailableInRange(limits, buckets, key, e.at);
    if e.event.Evict? {
      assert Available(limits, Next(limits, buckets, e), key, e.at) >= Available(limits, buckets, key, e.at);
    } else {
      NextAvailable(limits, buckets, e, key);
    }
    hide Refill;
  }
}
