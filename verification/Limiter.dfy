/** The token-bucket rate limiter with eviction of idle buckets. Times are in minutes. */
module Limiter {
  import opened Collections

  datatype Bucket = Bucket(tokens: real, lastRefill: real)

  datatype Limits = Limits(ratePerMin: int, burst: int)

  const STALE_AFTER: real := 5.0

  function Rate(limits: Limits): real { limits.ratePerMin as real }

  function Burst(limits: Limits): real { limits.burst as real }

  /** The tokens that come back in `elapsed` minutes. */
  function Refill(limits: Limits, elapsed: real): real { elapsed * Rate(limits) }

  function Min(a: real, b: real): real { if a < b then a else b }

  /** The tokens a key can spend at `now`; a key without a bucket has a full one. */
  function Available(limits: Limits, buckets: map<string, Bucket>, key: string, now: real): real {
    if key in buckets then
      var b := buckets[key];
      Min(Burst(limits), b.tokens + Refill(limits, now - b.lastRefill))
    else Burst(limits)
  }

  class Limiter {
    const limits: Limits
    var buckets: map<string, Bucket>

    constructor (ratePerMin: int, burst: int)
      ensures limits == Limits(ratePerMin, burst) && buckets == map[]
    {
      limits := Limits(ratePerMin, burst);
      buckets := map[];
    }

    /** Reports whether a request is permitted, and spends a token if so. */
    method Allow(key: string, now: real) returns (ok: bool)
      modifies this
      ensures buckets == Next(limits, old(buckets), Timed(now, Call(key)))
      ensures ok <==> Available(limits, old(buckets), key, now) >= 1.0
    {
      if key !in buckets {
        buckets := buckets[key := Bucket(limits.burst as real, now)];
      }
      var elapsed := now - buckets[key].lastRefill;
      var tokens := buckets[key].tokens + Refill(limits, elapsed);
      RefillZero(limits);
      if tokens > limits.burst as real {
        tokens := limits.burst as real;
      }
      buckets := buckets[key := Bucket(tokens, now)];
      if tokens < 1.0 {
        return false;
      }
      buckets := buckets[key := Bucket(tokens - 1.0, now)];
      return true;
    }

    /** Removes the bucket of a key. */
    method Reset(key: string)
      modifies this
      ensures forall at :: buckets == Next(limits, old(buckets), Timed(at, Clear(key)))
    {
      buckets := buckets - {key};
    }

    /** Drops the buckets idle since before `readAt` less five minutes. The clock is read before the
        lock is taken, so other calls may come between the reading and the removal. */
    method EvictStale(readAt: real)
      modifies this
      ensures forall at :: buckets == Next(limits, old(buckets), Timed(at, Evict(readAt)))
    {
      var cutoff := readAt - STALE_AFTER;
      var todo := buckets.Keys;
      while todo != {}
        invariant todo <= buckets.Keys <= old(buckets).Keys
        invariant forall k | k in buckets :: buckets[k] == old(buckets)[k]
        invariant forall k | k in old(buckets) && k !in todo :: k in buckets <==> old(buckets)[k].lastRefill >= cutoff
        decreases |todo|
      {
        var key :| key in todo;
        if buckets[key].lastRefill < cutoff {
          buckets := buckets - {key};
        }
        todo := todo - {key};
      }
    }
  }

  // --- Runs ----------------------------------------------------------------------------------

  datatype Event = Call(key: string) | Clear(key: string) | Evict(readAt: real)

  datatype Timed = Timed(at: real, event: Event)

  /** The buckets after one operation. */
  function Next(limits: Limits, buckets: map<string, Bucket>, e: Timed): map<string, Bucket> {
    match e.event
    case Call(key) =>
      var available := Available(limits, buckets, key, e.at);
      buckets[key := Bucket(if available >= 1.0 then available - 1.0 else available, e.at)]
    case Clear(key) => buckets - {key}
    case Evict(readAt) => map k | k in buckets && buckets[k].lastRefill >= readAt - STALE_AFTER :: buckets[k]
  }

  function After(limits: Limits, buckets: map<string, Bucket>, run: seq<Timed>): map<string, Bucket>
    decreases |run|
  {
    if run == [] then buckets else After(limits, Next(limits, buckets, run[0]), run[1..])
  }

  /** What the calls of a run are told, in order. */
  function Answers(limits: Limits, buckets: map<string, Bucket>, run: seq<Timed>): seq<(string, bool)>
    decreases |run|
  {
    if run == [] then []
    else
      var rest := Answers(limits, Next(limits, buckets, run[0]), run[1..]);
      match run[0].event
      case Call(key) => [(key, Available(limits, buckets, key, run[0].at) >= 1.0)] + rest
      case _ => rest
  }

  /** How many calls of `key` were permitted. */
  function Grants(answers: seq<(string, bool)>, key: string): nat {
    if answers == [] then 0 else (if answers[0] == (key, true) then 1 else 0) + Grants(answers[1..], key)
  }

  /** Operations take the lock in the order of their clock readings; an eviction read the clock earlier. */
  predicate Ordered(run: seq<Timed>, from: real) {
    run == [] ||
    (from <= run[0].at && (run[0].event.Evict? ==> run[0].event.readAt <= run[0].at) && Ordered(run[1..], run[0].at))
  }

  predicate NeverCleared(run: seq<Timed>, key: string) {
    forall e | e in run :: e.event != Clear(key)
  }

  predicate WithoutEvictions(run: seq<Timed>) {
    forall e | e in run :: !e.event.Evict?
  }

  function End(run: seq<Timed>, from: real): real {
    if run == [] then from else run[|run| - 1].at
  }

  /** Tokens stay within 0 and the burst, and no bucket was touched in the future. */
  ghost predicate Valid(limits: Limits, buckets: map<string, Bucket>, now: real) {
    forall k | k in buckets :: 0.0 <= buckets[k].tokens <= Burst(limits) && buckets[k].lastRefill <= now
  }

  predicate Sensible(limits: Limits) { 0 <= limits.ratePerMin && 0 <= limits.burst }

  /** A bucket idle for the eviction period is full. */
  predicate RefillsBeforeEviction(limits: Limits) { limits.burst <= 5 * limits.ratePerMin }

  lemma RefillGrows(limits: Limits, a: real, b: real)
    requires Sensible(limits) && a <= b
    ensures Refill(limits, a) <= Refill(limits, b)
    ensures Refill(limits, 0.0) == 0.0
  {
  }

  lemma RefillZero(limits: Limits)
    ensures Refill(limits, 0.0) == 0.0
  {
  }

  lemma RefillAdds(limits: Limits, a: real, b: real)
    ensures Refill(limits, a + b) == Refill(limits, a) + Refill(limits, b)
  {
  }

  /** Clamped refills compose: refilling up to `t` and then up to `u` is refilling up to `u`. */
  lemma RefillComposes(limits: Limits, buckets: map<string, Bucket>, key: string, t: real, u: real)
    requires Sensible(limits) && t <= u
    ensures Available(limits, buckets, key, u) ==
            Min(Burst(limits), Available(limits, buckets, key, t) + Refill(limits, u - t))
  {
    RefillGrows(limits, 0.0, u - t);
    if key in buckets {
      RefillAdds(limits, t - buckets[key].lastRefill, u - t);
      assert (t - buckets[key].lastRefill) + (u - t) == u - buckets[key].lastRefill;
    }
    hide Refill;
  }

  lemma AvailableInRange(limits: Limits, buckets: map<string, Bucket>, key: string, now: real)
    requires Sensible(limits) && Valid(limits, buckets, now)
    ensures 0.0 <= Available(limits, buckets, key, now) <= Burst(limits)
  {
    if key in buckets { RefillGrows(limits, 0.0, now - buckets[key].lastRefill); }
    hide Refill;
  }

  lemma NextIsValid(limits: Limits, buckets: map<string, Bucket>, e: Timed, now: real)
    requires Sensible(limits) && Valid(limits, buckets, now) && now <= e.at
    ensures Valid(limits, Next(limits, buckets, e), e.at)
  {
    if e.event.Call? {
      assert Valid(limits, buckets, e.at);
      AvailableInRange(limits, buckets, e.event.key, e.at);
      hide Available;
    }
  }

  lemma {:induction false} AfterIsValid(limits: Limits, buckets: map<string, Bucket>, run: seq<Timed>, now: real)
    requires Sensible(limits) && Valid(limits, buckets, now) && Ordered(run, now)
    ensures Valid(limits, After(limits, buckets, run), End(run, now))
    decreases |run|
  {
    if run != [] {
      NextIsValid(limits, buckets, run[0], now);
      AfterIsValid(limits, Next(limits, buckets, run[0]), run[1..], run[0].at);
    }
  }

  /** What one operation does to the tokens a key can spend: a permitted call takes one, a reset
      refills, and nothing else, eviction included, can be seen. */
  lemma NextAvailable(limits: Limits, buckets: map<string, Bucket>, e: Timed, key: string)
    requires Sensible(limits) && Valid(limits, buckets, e.at)
    requires e.event.Evict? ==> e.event.readAt <= e.at && RefillsBeforeEviction(limits)
    ensures var before := Available(limits, buckets, key, e.at);
            Available(limits, Next(limits, buckets, e), key, e.at) ==
            if e.event == Call(key) && before >= 1.0 then before - 1.0
            else if e.event == Clear(key) then Burst(limits)
            else before
  {
    AvailableInRange(limits, buckets, key, e.at);
    RefillGrows(limits, 0.0, 0.0);
    if e.event.Evict? && key in buckets { IdleIsFull(limits, buckets, key, e.at); }
    hide Refill;
  }

  lemma IdleIsFull(limits: Limits, buckets: map<string, Bucket>, key: string, now: real)
    requires Sensible(limits) && Valid(limits, buckets, now) && RefillsBeforeEviction(limits) && key in buckets
    ensures buckets[key].lastRefill < now - STALE_AFTER ==> Available(limits, buckets, key, now) == Burst(limits)
  {
    if buckets[key].lastRefill < now - STALE_AFTER {
      RefillGrows(limits, STALE_AFTER, now - buckets[key].lastRefill);
      assert Burst(limits) <= Refill(limits, STALE_AFTER);
    }
  }
}
