/** Queries that go through the response cache, any number of them interleaved. */
module CachedQuery {
  import opened Collections
  import opened Dns
  import Cache

  datatype Request = Request(resolver: Resolver, name: string, qtype: string, noCache: bool)

  /** The result reported for what the client returned; `None` stands for its error. */
  function FromClient(resolver: Resolver, reply: Option<ResolverResult>): ResolverResult {
    if reply.Some? then reply.value else ResolverResult(resolver, Status.Error, [])
  }

  function KeyOf(digest: string -> string, req: Request): string {
    digest(Cache.Preimage(req.resolver.id, req.name, req.qtype))
  }

  class Checker {
    const cache: Cache.Memory
    const ttl: int
    const digest: string -> string

    constructor (ttl: int, digest: string -> string)
      ensures this.ttl == ttl && this.digest == digest && fresh(cache) && cache.lru == map[]
    {
      this.ttl, this.digest := ttl, digest;
      cache := new Cache.Memory();
    }

    /** `reply` is what the client returns if it is asked; the clock reads `readAt` at the cache read
        and `storedAt` at the cache write, which evicts the keys in `evicted`. */
    method QueryWithCache(req: Request, reply: Option<ResolverResult>, readAt: int, storedAt: int, evicted: set<string>)
      returns (result: ResolverResult)
      modifies cache
      ensures req.noCache ==> cache.lru == old(cache.lru) && result == FromClient(req.resolver, reply)
      ensures var key := KeyOf(digest, req);
              var found := Cache.Find(old(cache.lru), key, readAt);
              !req.noCache ==>
                && result == (if found.Some? then found.value else FromClient(req.resolver, reply))
                && cache.lru == if found.Some? then old(cache.lru)
                                else if reply.None? then Cache.Expire(old(cache.lru), key, readAt)
                                else Cache.Put(Cache.Expire(old(cache.lru), key, readAt), key, reply.value, storedAt + ttl, evicted)
    {
      var key := KeyOf(digest, req);
      if !req.noCache {
        var data := cache.Get(key, readAt);
        if data.Some? {
          return data.value;
        }
      }
      if reply.None? {
        return ResolverResult(req.resolver, Status.Error, []);
      }
      if !req.noCache {
        cache.Set(key, reply.value, ttl, storedAt, evicted);
      }
      return reply.value;
    }
  }

  // --- Interleaved calls -----------------------------------------------------------------------

  /** Call `i` makes request `requests[i]`; asked for it, the client returns `replies[i]`. */
  datatype Config = Config(requests: seq<Request>, replies: seq<Option<ResolverResult>>, ttl: int, digest: string -> string)

  /** Where a finished call got its result: from the cache at some time, from the client with a cache
      write at some time, or from the client alone. */
  datatype Origin = Hit(at: int) | Stored(at: int) | Unstored

  datatype Phase = Ready | Missed | Answered(result: ResolverResult) | Done(result: ResolverResult, origin: Origin)

  datatype State = State(store: Cache.Store, phases: seq<Phase>, clock: int)

  datatype Action = Tick(now: int) | Evict(keys: set<string>) | Look(i: nat) | Ask(i: nat) | Keep(i: nat, evicted: set<string>)

  predicate Enabled(cfg: Config, s: State, a: Action) {
    && |s.phases| == |cfg.requests| == |cfg.replies|
    && match a
       case Tick(now) => now >= s.clock
       case Evict(_) => true
       case Look(i) => i < |s.phases| && s.phases[i].Ready?
       case Ask(i) => i < |s.phases| && s.phases[i].Missed?
       case Keep(i, _) => i < |s.phases| && s.phases[i].Answered?
  }

  function Apply(cfg: Config, s: State, a: Action): State
    requires Enabled(cfg, s, a)
  {
    match a
    case Tick(now) => s.(clock := now)
    case Evict(keys) => s.(store := s.store - keys)
    case Look(i) =>
      var key := KeyOf(cfg.digest, cfg.requests[i]);
      if cfg.requests[i].noCache then s.(phases := s.phases[i := Missed])
      else
        var found := Cache.Find(s.store, key, s.clock);
        s.(store := Cache.Expire(s.store, key, s.clock),
           phases := s.phases[i := if found.Some? then Done(found.value, Hit(s.clock)) else Missed])
    case Ask(i) =>
      var result := FromClient(cfg.requests[i].resolver, cfg.replies[i]);
      s.(phases := s.phases[i := if cfg.replies[i].Some? && !cfg.requests[i].noCache then Answered(result) else Done(result, Unstored)])
    case Keep(i, evicted) =>
      var r := s.phases[i].result;
      State(Cache.Put(s.store, KeyOf(cfg.digest, cfg.requests[i]), r, s.clock + cfg.ttl, evicted),
            s.phases[i := Done(r, Stored(s.clock))], s.clock)
  }

  ghost predicate IsRun(cfg: Config, states: seq<State>, actions: seq<Action>) {
    && |states| == |actions| + 1
    && |cfg.requests| == |cfg.replies|
    && states[0].store == map[] && states[0].phases == seq(|cfg.requests|, _ => Ready)
    && forall k | 0 <= k < |actions| :: Enabled(cfg, states[k], actions[k]) && states[k + 1] == Apply(cfg, states[k], actions[k])
  }

  // --- Invariant -------------------------------------------------------------------------------

  /** Call `j` asked the client and wrote `value` under `key` at time `at`. */
  predicate Wrote(cfg: Config, s: State, j: nat, key: string, value: ResolverResult, at: int) {
    && j < |s.phases| == |cfg.requests| == |cfg.replies|
    && s.phases[j] == Done(value, Stored(at)) && at <= s.clock
    && KeyOf(cfg.digest, cfg.requests[j]) == key
  }

  ghost predicate HasWriter(cfg: Config, s: State, key: string, value: ResolverResult, from: int, until: int) {
    exists j, at :: Wrote(cfg, s, j, key, value, at) && at <= from && until <= at + cfg.ttl
  }

  ghost predicate PhaseInv(cfg: Config, s: State, i: nat)
    requires i < |s.phases| == |cfg.requests| == |cfg.replies|
  {
    match s.phases[i]
    case Ready => true
    case Missed => true
    case Answered(r) => !cfg.requests[i].noCache && cfg.replies[i] == Some(r)
    case Done(r, Hit(at)) => !cfg.requests[i].noCache && HasWriter(cfg, s, KeyOf(cfg.digest, cfg.requests[i]), r, at, at)
    case Done(r, Stored(at)) => !cfg.requests[i].noCache && cfg.replies[i] == Some(r)
    case Done(r, Unstored) => r == FromClient(cfg.requests[i].resolver, cfg.replies[i]) && (cfg.requests[i].noCache || cfg.replies[i].None?)
  }

  ghost predicate StoreInv(cfg: Config, s: State) {
    forall key | key in s.store :: HasWriter(cfg, s, key, s.store[key].value, s.clock, s.store[key].expiresAt)
  }

  ghost predicate Inv(cfg: Config, s: State) {
    && |s.phases| == |cfg.requests| == |cfg.replies|
    && StoreInv(cfg, s)
    && forall i | 0 <= i < |s.phases| :: PhaseInv(cfg, s, i)
  }

  /** A finished call stays finished, so its write is never lost from sight. */
  lemma WritersStay(cfg: Config, s: State, t: State, key: string, value: ResolverResult, from: int, until: int)
    requires HasWriter(cfg, s, key, value, from, until)
    requires |t.phases| == |s.phases| && s.clock <= t.clock
    requires forall j | 0 <= j < |s.phases| && s.phases[j].Done? :: t.phases[j] == s.phases[j]
    ensures HasWriter(cfg, t, key, value, from, until)
  {
    var j, at :| Wrote(cfg, s, j, key, value, at) && at <= from && until <= at + cfg.ttl;
    assert Wrote(cfg, t, j, key, value, at);
  }

  lemma LaterFrom(cfg: Config, s: State, key: string, value: ResolverResult, from: int, until: int, from': int, until': int)
    requires HasWriter(cfg, s, key, value, from, until) && from <= from' && until' <= until
    ensures HasWriter(cfg, s, key, value, from', until')
  {
    var j, at :| Wrote(cfg, s, j, key, value, at) && at <= from && until <= at + cfg.ttl;
    assert Wrote(cfg, s, j, key, value, at) && at <= from' && until' <= at + cfg.ttl;
  }

  lemma StepKeeps(cfg: Config, s: State, a: Action)
    requires Inv(cfg, s) && Enabled(cfg, s, a)
    ensures Inv(cfg, Apply(cfg, s, a))
  {
    var t := Apply(cfg, s, a);
    StepKeepsStore(cfg, s, a);
    forall i | 0 <= i < |t.phases| ensures PhaseInv(cfg, t, i) {
      StepKeepsPhase(cfg, s, a, i);
    }
  }

  lemma StepKeepsStore(cfg: Config, s: State, a: Action)
    requires Inv(cfg, s) && Enabled(cfg, s, a)
    ensures StoreInv(cfg, Apply(cfg, s, a))
  {
    var t := Apply(cfg, s, a);
    StepKeepsDone(cfg, s, a);
    hide KeyOf, FromClient, PhaseInv;
    forall key | key in t.store ensures HasWriter(cfg, t, key, t.store[key].value, t.clock, t.store[key].expiresAt) {
      if a.Keep? && key == KeyOf(cfg.digest, cfg.requests[a.i]) {
        assert Wrote(cfg, t, a.i, key, t.store[key].value, t.clock);
      } else {
        assert key in s.store && t.store[key] == s.store[key];
        WritersStay(cfg, s, t, key, s.store[key].value, s.clock, s.store[key].expiresAt);
        LaterFrom(cfg, t, key, s.store[key].value, s.clock, s.store[key].expiresAt, t.clock, s.store[key].expiresAt);
      }
    }
  }

  lemma StepKeepsDone(cfg: Config, s: State, a: Action)
    requires Enabled(cfg, s, a)
    ensures var t := Apply(cfg, s, a);
            |t.phases| == |s.phases| && s.clock <= t.clock
            && forall j | 0 <= j < |s.phases| && s.phases[j].Done? :: t.phases[j] == s.phases[j]
  {
  }

  lemma StepKeepsPhase(cfg: Config, s: State, a: Action, i: nat)
    requires Inv(cfg, s) && Enabled(cfg, s, a) && i < |s.phases|
    ensures |Apply(cfg, s, a).phases| == |s.phases| && PhaseInv(cfg, Apply(cfg, s, a), i)
  {
    var t := Apply(cfg, s, a);
    StepKeepsDone(cfg, s, a);
    hide KeyOf;
    assert PhaseInv(cfg, s, i);
    if s.phases[i].Done? && s.phases[i].origin.Hit? {
      WritersStay(cfg, s, t, KeyOf(cfg.digest, cfg.requests[i]), s.phases[i].result, s.phases[i].origin.at, s.phases[i].origin.at);
    } else if a == Look(i) && t.phases[i].Done? {
      var key := KeyOf(cfg.digest, cfg.requests[i]);
      WritersStay(cfg, s, t, key, s.store[key].value, s.clock, s.store[key].expiresAt);
      LaterFrom(cfg, t, key, s.store[key].value, s.clock, s.store[key].expiresAt, s.clock, s.clock);
    }
  }

  lemma {:induction false} RunKeeps(cfg: Config, states: seq<State>, actions: seq<Action>, k: nat)
    requires IsRun(cfg, states, actions) && k < |states|
    ensures Inv(cfg, states[k])
  {
    if k > 0 {
      RunKeeps(cfg, states, actions, k - 1);
      StepKeeps(cfg, states[k - 1], actions[k - 1]);
    }
  }

  // --- Theorems --------------------------------------------------------------------------------

  /** Names and types as validated, and no two of the requested texts with the same digest. */
  ghost predicate Sane(cfg: Config) {
    && (forall r | r in cfg.requests :: '|' !in r.name && '|' !in r.qtype)
    && forall q, r | q in cfg.requests && r in cfg.requests && KeyOf(cfg.digest, q) == KeyOf(cfg.digest, r) ::
         Cache.Preimage(q.resolver.id, q.name, q.qtype) == Cache.Preimage(r.resolver.id, r.name, r.qtype)
  }

  predicate SameQuestion(q: Request, r: Request) {
    q.resolver.id == r.resolver.id && q.name == r.name && q.qtype == r.qtype
  }

  /** In every interleaving, with evictions at any time: a call answered from the cache at time `at`
      returns what the client returned to another cached call `j` for the same resolver ID, name and
      type, and that result was written no later than `at` and no longer than the TTL before it. */
  lemma HitIsFresh(cfg: Config, states: seq<State>, actions: seq<Action>, k: nat, i: nat) returns (j: nat, storedAt: int)
    requires Sane(cfg) && IsRun(cfg, states, actions) && k < |states|
    requires i < |states[k].phases| && states[k].phases[i].Done? && states[k].phases[i].origin.Hit?
    ensures i != j < |states[k].phases| == |cfg.requests| == |cfg.replies|
    ensures var at := states[k].phases[i].origin.at; storedAt <= at <= storedAt + cfg.ttl
    ensures states[k].phases[j] == Done(states[k].phases[i].result, Stored(storedAt))
    ensures cfg.replies[j] == Some(states[k].phases[i].result)
    ensures Wrote(cfg, states[k], j, KeyOf(cfg.digest, cfg.requests[i]), states[k].phases[i].result, storedAt)
    ensures SameQuestion(cfg.requests[i], cfg.requests[j])
    ensures !cfg.requests[i].noCache && !cfg.requests[j].noCache
  {
    RunKeeps(cfg, states, actions, k);
    var s := states[k];
    var at := s.phases[i].origin.at;
    assert PhaseInv(cfg, s, i);
    var key := KeyOf(cfg.digest, cfg.requests[i]);
    j, storedAt :| Wrote(cfg, s, j, key, s.phases[i].result, storedAt) && storedAt <= at && at <= storedAt + cfg.ttl;
    assert PhaseInv(cfg, s, j);
    var q, r := cfg.requests[i], cfg.requests[j];
    assert q in cfg.requests && r in cfg.requests;
    Cache.PreimageInjective(q.resolver.id, q.name, q.qtype, r.resolver.id, r.name, r.qtype);
  }

  /** A call that did not hit returns what the client returned to it, errors included; a call that
      bypasses the cache never hits and never writes. */
  lemma MissIsLive(cfg: Config, states: seq<State>, actions: seq<Action>, k: nat, i: nat)
    requires IsRun(cfg, states, actions) && k < |states|
    requires i < |states[k].phases| && states[k].phases[i].Done?
    ensures i < |cfg.requests| == |cfg.replies|
    ensures cfg.requests[i].noCache ==> states[k].phases[i].origin == Unstored
    ensures !states[k].phases[i].origin.Hit? ==>
              states[k].phases[i].result == FromClient(cfg.requests[i].resolver, cfg.replies[i])
    ensures !states[k].phases[i].origin.Hit? ==>
              if cfg.replies[i].Some? then states[k].phases[i].result == cfg.replies[i].value
              else states[k].phases[i].result == ResolverResult(cfg.requests[i].resolver, Status.Error, [])
    ensures states[k].phases[i].origin.Stored? ==> cfg.replies[i].Some?
  {
    RunKeeps(cfg, states, actions, k);
    assert PhaseInv(cfg, states[k], i);
  }

  /** Calls that bypass the cache are blind to it and leave it alone: whatever the store, their steps
      are enabled and lead to the same phase, and the store stays. */
  lemma BypassIsBlind(cfg: Config, s: State, a: Action, other: Cache.Store)
    requires Inv(cfg, s) && Enabled(cfg, s, a)
    requires a.Look? || a.Ask? || a.Keep?
    requires cfg.requests[a.i].noCache
    ensures Enabled(cfg, s.(store := other), a)
    ensures Apply(cfg, s.(store := other), a) == Apply(cfg, s, a).(store := other)
    ensures Apply(cfg, s, a).store == s.store
  {
    assert PhaseInv(cfg, s, a.i);
  }

  // --- Whose result a hit is -----------------------------------------------------------------------

  predicate IsHit(s: State, i: nat) { i < |s.phases| && s.phases[i].Done? && s.phases[i].origin.Hit? }

  /** The hit of call `i` is what a call to the same resolver wrote in time. */
  ghost predicate HitIsOwn(cfg: Config, s: State, i: nat)
    requires IsHit(s, i) && |s.phases| == |cfg.requests|
  {
    var p := s.phases[i];
    exists j: nat, storedAt: int ::
      && Wrote(cfg, s, j, KeyOf(cfg.digest, cfg.requests[i]), p.result, storedAt)
      && storedAt <= p.origin.at <= storedAt + cfg.ttl
      && cfg.requests[j].resolver == cfg.requests[i].resolver
  }

  /** In no run does a hit return only another resolver's result. */
  ghost predicate HitsAreOwn(cfg: Config) {
    forall states: seq<State>, actions, k, i: nat | IsRun(cfg, states, actions) && 0 <= k < |states| && IsHit(states[k], i) ::
      |states[k].phases| == |cfg.requests| && HitIsOwn(cfg, states[k], i)
  }

  /** Two cached calls with the same resolver ID, name and type are to the same resolver. */
  ghost predicate IDsIdentify(requests: seq<Request>) {
    forall i, j | 0 <= i < |requests| && 0 <= j < |requests| && !requests[i].noCache && !requests[j].noCache ::
      SameQuestion(requests[i], requests[j]) ==> requests[i].resolver == requests[j].resolver
  }

  /** Whatever the servers reply and however the calls are interleaved, hits are the queried resolver's
      own results exactly when the IDs of the requested resolvers identify them (or nothing is kept at
      all). */
  lemma HitsAreOwnIff(cfg: Config)
    requires Sane(cfg)
    ensures (forall replies: seq<Option<ResolverResult>> | |replies| == |cfg.requests| :: HitsAreOwn(cfg.(replies := replies))) <==>
            cfg.ttl < 0 || IDsIdentify(cfg.requests)
  {
    var requests := cfg.requests;
    if cfg.ttl < 0 || IDsIdentify(requests) {
      forall replies: seq<Option<ResolverResult>> | |replies| == |requests| ensures HitsAreOwn(cfg.(replies := replies)) {
        IdentifyingIDsSuffice(cfg.(replies := replies));
      }
    } else {
      var i, j :| && 0 <= i < |requests| && 0 <= j < |requests| && !requests[i].noCache && !requests[j].noCache
                  && SameQuestion(requests[i], requests[j]) && requests[i].resolver != requests[j].resolver;
      var reply := ResolverResult(requests[j].resolver, Status.OK, []);
      var replies := seq(|requests|, _ => Some(reply));
      AmbiguousIDsMislead(cfg.(replies := replies), i, j, reply);
    }
  }

  lemma IdentifyingIDsSuffice(cfg: Config)
    requires Sane(cfg) && (cfg.ttl < 0 || IDsIdentify(cfg.requests)) && |cfg.replies| == |cfg.requests|
    ensures HitsAreOwn(cfg)
  {
    forall states: seq<State>, actions, k, i: nat | IsRun(cfg, states, actions) && 0 <= k < |states| && IsHit(states[k], i)
      ensures |states[k].phases| == |cfg.requests| && HitIsOwn(cfg, states[k], i)
    {
      RunKeeps(cfg, states, actions, k);
      var j, storedAt := HitIsFresh(cfg, states, actions, k, i);
      hide IsRun, Inv, Wrote;
      assert cfg.requests[j].resolver == cfg.requests[i].resolver;
    }
  }

  lemma AmbiguousIDsMislead(cfg: Config, i: nat, j: nat, reply: ResolverResult)
    requires i < |cfg.requests| == |cfg.replies| && j < |cfg.requests| && cfg.ttl >= 0
    requires !cfg.requests[i].noCache && !cfg.requests[j].noCache && cfg.replies[j] == Some(reply)
    requires SameQuestion(cfg.requests[i], cfg.requests[j]) && cfg.requests[i].resolver != cfg.requests[j].resolver
    ensures !HitsAreOwn(cfg)
  {
    var states, actions := HitAfter(cfg, i, j, reply);
    hide IsRun;
    var s := states[4];
    assert IsHit(s, i);
    forall w: nat, key, value, at | Wrote(cfg, s, w, key, value, at) ensures w == j {
      assert s.phases[w].origin.Stored?;
    }
  }

  /** Any cached call can answer a later one with the same question from the cache. */
  lemma HitAfter(cfg: Config, i: nat, j: nat, reply: ResolverResult) returns (states: seq<State>, actions: seq<Action>)
    requires i < |cfg.requests| == |cfg.replies| && j < |cfg.requests| && i != j && cfg.ttl >= 0
    requires !cfg.requests[i].noCache && !cfg.requests[j].noCache && cfg.replies[j] == Some(reply)
    requires SameQuestion(cfg.requests[i], cfg.requests[j])
    ensures IsRun(cfg, states, actions) && |states| == 5
    ensures states[4].phases == seq(|cfg.requests|, _ => Ready)[j := Done(reply, Stored(0))][i := Done(reply, Hit(0))]
  {
    var ready: seq<Phase> := seq(|cfg.requests|, _ => Ready);
    var key := KeyOf(cfg.digest, cfg.requests[j]);
    assert key == KeyOf(cfg.digest, cfg.requests[i]);
    var store: Cache.Store := map[key := Cache.Entry(reply, cfg.ttl)];
    var written := ready[j := Done(reply, Stored(0))];
    actions := [Look(j), Ask(j), Keep(j, {}), Look(i)];
    states := [
      State(map[], ready, 0), State(map[], ready[j := Missed], 0), State(map[], ready[j := Answered(reply)], 0),
      State(store, written, 0), State(store, written[i := Done(reply, Hit(0))], 0)];
    hide KeyOf;
    assert states[1] == Apply(cfg, states[0], actions[0]);
    assert states[2] == Apply(cfg, states[1], actions[1]);
    assert states[3] == Apply(cfg, states[2], actions[2]);
    assert states[4] == Apply(cfg, states[3], actions[3]);
  }

  /** In particular a call to a different server under the same ID is answered with the first server's
      result. */
  lemma HitMayComeFromAnotherServer(first: Resolver, second: Resolver, reply: ResolverResult, ttl: nat, digest: string -> string)
    returns (cfg: Config, states: seq<State>, actions: seq<Action>)
    requires first.id == second.id && first.ip != second.ip
    ensures IsRun(cfg, states, actions) && cfg.ttl == ttl && |states| == 5 && |cfg.requests| == 2
    ensures cfg.requests[0].resolver == first && cfg.requests[1].resolver == second && cfg.replies == [Some(reply), None]
    ensures states[4].phases == [Done(reply, Stored(0)), Done(reply, Hit(0))]
  {
    cfg := Config([Request(first, "a", "A", false), Request(second, "a", "A", false)], [Some(reply), None], ttl, digest);
    states, actions := HitAfter(cfg, 1, 0, reply);
  }

  // --- Failures in the cache ---------------------------------------------------------------------

  /** Timeouts and failures are results too; only an error value of the client is none. */
  predicate Succeeded(r: ResolverResult) { r.status in {OK, NXDomain} }

  ghost predicate HitsSucceed(cfg: Config) {
    forall states: seq<State>, actions, k, i: nat | IsRun(cfg, states, actions) && 0 <= k < |states| && IsHit(states[k], i) ::
      Succeeded(states[k].phases[i].result)
  }

  /** A reply that another cached call asks for again is no failure. */
  ghost predicate NoFailureIsAskedAgain(cfg: Config)
    requires |cfg.requests| == |cfg.replies|
  {
    forall i, j | && 0 <= i < |cfg.requests| && 0 <= j < |cfg.requests| && i != j
                  && !cfg.requests[i].noCache && !cfg.requests[j].noCache
                  && SameQuestion(cfg.requests[i], cfg.requests[j]) && cfg.replies[j].Some? ::
      Succeeded(cfg.replies[j].value)
  }

  /** A failure is kept like an answer: no hit of any run reports one exactly when no failure is asked for
      again (or nothing is kept at all). */
  lemma HitsSucceedIff(cfg: Config)
    requires Sane(cfg) && |cfg.requests| == |cfg.replies|
    ensures HitsSucceed(cfg) <==> cfg.ttl < 0 || NoFailureIsAskedAgain(cfg)
  {
    if cfg.ttl < 0 || NoFailureIsAskedAgain(cfg) {
      forall states: seq<State>, actions, k, i: nat | IsRun(cfg, states, actions) && 0 <= k < |states| && IsHit(states[k], i)
        ensures Succeeded(states[k].phases[i].result)
      {
        var j, storedAt := HitIsFresh(cfg, states, actions, k, i);
      }
    } else {
      var i, j :| && 0 <= i < |cfg.requests| && 0 <= j < |cfg.requests| && i != j
                  && !cfg.requests[i].noCache && !cfg.requests[j].noCache
                  && SameQuestion(cfg.requests[i], cfg.requests[j]) && cfg.replies[j].Some?
                  && !Succeeded(cfg.replies[j].value);
      var states, actions := HitAfter(cfg, i, j, cfg.replies[j].value);
      hide IsRun;
      assert IsHit(states[4], i);
    }
  }

  /** For instance a timeout is served again to a second call. */
  lemma TimeoutIsServedAgain(resolver: Resolver, ttl: nat, digest: string -> string)
    returns (cfg: Config, states: seq<State>, actions: seq<Action>)
    ensures IsRun(cfg, states, actions) && cfg.ttl == ttl && |states| == 5
    ensures cfg.requests == [Request(resolver, "a", "A", false), Request(resolver, "a", "A", false)]
    ensures var timeout := ResolverResult(resolver, Timeout, []);
            states[4].phases == [Done(timeout, Stored(0)), Done(timeout, Hit(0))]
  {
    var req, timeout := Request(resolver, "a", "A", false), ResolverResult(resolver, Timeout, []);
    cfg := Config([req, req], [Some(timeout), None], ttl, digest);
    states, actions := HitAfter(cfg, 1, 0, timeout);
  }
}
