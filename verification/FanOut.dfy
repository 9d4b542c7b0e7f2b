/** The blocking fan-out of a check: one worker per resolver, a counting semaphore, a wait group, and
    a result slice in which worker `i` writes slot `i`. */
module FanOut {
  import opened Collections
  import opened Dns
  import StreamProtocol

  /** `replies[i]` is what the query of the `i`-th resolver returns. */
  datatype Config = Config(replies: seq<ResolverResult>, concurrency: int)

  datatype Phase =
    | Unspawned
    | Acquiring
    | Querying
    | Writing(result: ResolverResult)
    | Releasing
    | Finishing
    | Exited

  datatype Coordinator = Spawning(next: nat) | Waiting | Returned

  /** `slots` is the result slice, with `None` for its zero value; `writes` counts the writes to each
      slot. */
  datatype State = State(
    workers: seq<Phase>,
    coordinator: Coordinator,
    semaphore: nat,
    waitGroup: nat,
    slots: seq<Option<ResolverResult>>,
    writes: seq<nat>,
    panicked: bool)

  function Init(cfg: Config): State {
    var n := |cfg.replies|;
    State(seq(n, _ => Unspawned), Spawning(0), 0, 0, seq(n, _ => None), seq(n, _ => 0), false)
  }

  datatype Action = Spawn | EndSpawning | Acquire(i: nat) | Query(i: nat) | Write(i: nat) | Release(i: nat) | Done(i: nat) | Await

  predicate Worker(a: Action) { !a.Spawn? && !a.EndSpawning? && !a.Await? }

  predicate Enabled(cfg: Config, s: State, a: Action) {
    && !s.panicked
    && |s.workers| == |s.slots| == |s.writes| == |cfg.replies|
    && (Worker(a) ==> a.i < |s.workers|)
    && match a
       case Spawn => s.coordinator.Spawning? && s.coordinator.next < |s.workers|
       case EndSpawning => s.coordinator.Spawning? && s.coordinator.next == |s.workers|
       case Acquire(i) => s.workers[i].Acquiring? && s.semaphore < StreamProtocol.EffectiveConcurrency(cfg.concurrency)
       case Query(i) => s.workers[i].Querying?
       case Write(i) => s.workers[i].Writing?
       case Release(i) => s.workers[i].Releasing? && s.semaphore > 0
       case Done(i) => s.workers[i].Finishing?
       case Await => s.coordinator.Waiting? && s.waitGroup == 0
  }

  function Apply(cfg: Config, s: State, a: Action): State
    requires Enabled(cfg, s, a)
  {
    match a
    case Spawn =>
      var i := s.coordinator.next;
      s.(workers := s.workers[i := Acquiring], waitGroup := s.waitGroup + 1, coordinator := Spawning(i + 1))
    case EndSpawning => s.(coordinator := Waiting)
    case Acquire(i) => s.(workers := s.workers[i := Querying], semaphore := s.semaphore + 1)
    case Query(i) => s.(workers := s.workers[i := Writing(cfg.replies[i])])
    case Write(i) =>
      s.(workers := s.workers[i := Releasing], slots := s.slots[i := Some(s.workers[i].result)],
         writes := s.writes[i := s.writes[i] + 1])
    case Release(i) => s.(workers := s.workers[i := Finishing], semaphore := s.semaphore - 1)
    case Done(i) =>
      if s.waitGroup == 0 then s.(panicked := true)
      else s.(workers := s.workers[i := Exited], waitGroup := s.waitGroup - 1)
    case Await => s.(coordinator := Returned)
  }

  ghost predicate IsRun(cfg: Config, states: seq<State>, actions: seq<Action>) {
    && |states| == |actions| + 1
    && states[0] == Init(cfg)
    && forall k | 0 <= k < |actions| :: Enabled(cfg, states[k], actions[k]) && states[k + 1] == Apply(cfg, states[k], actions[k])
  }

  // --- Invariant -----------------------------------------------------------------------------

  predicate Live(p: Phase) { !p.Unspawned? && !p.Exited? }

  predicate Holds(p: Phase) { p.Querying? || p.Writing? || p.Releasing? }

  predicate InFlight(p: Phase) { p.Querying? }

  predicate Written(p: Phase) { p.Releasing? || p.Finishing? || p.Exited? }

  ghost predicate Counters(cfg: Config, s: State) {
    && s.waitGroup == Count(s.workers, Live)
    && s.semaphore == Count(s.workers, Holds) <= StreamProtocol.EffectiveConcurrency(cfg.concurrency)
    && !s.panicked
  }

  ghost predicate Slots(cfg: Config, s: State) {
    && |s.workers| == |s.slots| == |s.writes| == |cfg.replies|
    && (forall i | 0 <= i < |s.workers| && s.workers[i].Writing? :: s.workers[i].result == cfg.replies[i])
    && (forall i | 0 <= i < |s.workers| :: s.slots[i] == if Written(s.workers[i]) then Some(cfg.replies[i]) else None)
    && (forall i | 0 <= i < |s.workers| :: s.writes[i] == if Written(s.workers[i]) then 1 else 0)
  }

  ghost predicate Coordination(s: State) {
    match s.coordinator
    case Spawning(next) => next <= |s.workers| && forall i | 0 <= i < |s.workers| :: s.workers[i].Unspawned? <==> i >= next
    case Waiting => forall i | 0 <= i < |s.workers| :: !s.workers[i].Unspawned?
    case Returned => forall i | 0 <= i < |s.workers| :: s.workers[i].Exited?
  }

  ghost predicate Inv(cfg: Config, s: State) { Counters(cfg, s) && Slots(cfg, s) && Coordination(s) }

  lemma InitHolds(cfg: Config)
    ensures Inv(cfg, Init(cfg))
  {
    CountZero(Init(cfg).workers, Live);
    CountZero(Init(cfg).workers, Holds);
  }

  lemma CountersKept(cfg: Config, s: State, a: Action)
    requires Inv(cfg, s) && Enabled(cfg, s, a)
    ensures Counters(cfg, Apply(cfg, s, a))
  {
    CountZero(s.workers, Live);
    if a.Spawn? || Worker(a) {
      var i := if a.Spawn? then s.coordinator.next else a.i;
      assert s.workers[i] in s.workers;
      var p := Apply(cfg, s, a).workers[i];
      CountUpdate(s.workers, i, p, Live);
      CountUpdate(s.workers, i, p, Holds);
    }
  }

  lemma SlotsKept(cfg: Config, s: State, a: Action)
    requires Inv(cfg, s) && Enabled(cfg, s, a)
    ensures Slots(cfg, Apply(cfg, s, a))
  {
  }

  lemma CoordinationKept(cfg: Config, s: State, a: Action)
    requires Inv(cfg, s) && Enabled(cfg, s, a)
    ensures Coordination(Apply(cfg, s, a))
  {
    CountZero(s.workers, Live);
    if a.Await? {
      forall i | 0 <= i < |s.workers| ensures s.workers[i].Exited? {
        assert s.workers[i] in s.workers;
      }
    }
  }

  lemma {:induction false} RunKeeps(cfg: Config, states: seq<State>, actions: seq<Action>, k: nat)
    requires IsRun(cfg, states, actions) && k < |states|
    ensures Inv(cfg, states[k])
  {
    hide Apply, Enabled, Init, Counters, Slots, Coordination;
    if k == 0 {
      InitHolds(cfg);
    } else {
      RunKeeps(cfg, states, actions, k - 1);
      CountersKept(cfg, states[k - 1], actions[k - 1]);
      SlotsKept(cfg, states[k - 1], actions[k - 1]);
      CoordinationKept(cfg, states[k - 1], actions[k - 1]);
    }
  }

  // --- Theorems ------------------------------------------------------------------------------

  /** The results in the written slots; all of them, once the coordinator has returned. */
  function Replies(slots: seq<Option<ResolverResult>>): seq<ResolverResult> {
    if slots == [] then []
    else (match slots[0] case Some(result) => [result] case None => []) + Replies(slots[1..])
  }

  lemma {:induction false} AllWritten(slots: seq<Option<ResolverResult>>, replies: seq<ResolverResult>)
    requires |slots| == |replies| && forall i | 0 <= i < |slots| :: slots[i] == Some(replies[i])
    ensures Replies(slots) == replies
  {
    if slots != [] {
      AllWritten(slots[1..], replies[1..]);
      assert replies == [replies[0]] + replies[1..];
    }
  }

  /** Whatever the schedule, the returned slice holds each resolver's own reply at the resolver's
      place in the list, and each slot was written once. */
  lemma ReturnsInListOrder(cfg: Config, states: seq<State>, actions: seq<Action>, k: nat)
    requires IsRun(cfg, states, actions) && k < |states| && states[k].coordinator.Returned?
    ensures Replies(states[k].slots) == cfg.replies && |states[k].slots| == |cfg.replies|
    ensures states[k].writes == seq(|cfg.replies|, _ => 1)
  {
    RunKeeps(cfg, states, actions, k);
    AllWritten(states[k].slots, cfg.replies);
  }

  /** At every moment at most the configured number of queries are in flight, and nothing panics. */
  lemma QueriesAreBounded(cfg: Config, states: seq<State>, actions: seq<Action>, k: nat)
    requires IsRun(cfg, states, actions) && k < |states|
    ensures Count(states[k].workers, InFlight) <= StreamProtocol.EffectiveConcurrency(cfg.concurrency)
    ensures !states[k].panicked
  {
    RunKeeps(cfg, states, actions, k);
    CountMonotone(states[k].workers, InFlight, Holds);
  }

  function Rank(p: Phase): nat {
    match p
    case Unspawned => 6
    case Acquiring => 5
    case Querying => 4
    case Writing(_) => 3
    case Releasing => 2
    case Finishing => 1
    case Exited => 0
  }

  function CoordinatorRank(c: Coordinator): nat {
    match c
    case Spawning(_) => 2
    case Waiting => 1
    case Returned => 0
  }

  function Measure(s: State): nat { Sum(s.workers, Rank) + CoordinatorRank(s.coordinator) }

  lemma StepDecreases(cfg: Config, s: State, a: Action)
    requires Inv(cfg, s) && Enabled(cfg, s, a)
    ensures Measure(Apply(cfg, s, a)) < Measure(s)
  {
    CountersKept(cfg, s, a);
    if a.Spawn? || Worker(a) {
      var i := if a.Spawn? then s.coordinator.next else a.i;
      SumUpdate(s.workers, i, Apply(cfg, s, a).workers[i], Rank);
    }
  }

  /** Until the coordinator has returned some step is enabled, and no run has more than six steps per
      resolver and two: every check ends. */
  lemma FanOutEnds(cfg: Config, states: seq<State>, actions: seq<Action>)
    requires IsRun(cfg, states, actions)
    ensures |actions| <= 6 * |cfg.replies| + 2
    ensures !states[|actions|].coordinator.Returned? ==> exists a :: Enabled(cfg, states[|actions|], a)
  {
    RunMeasure(cfg, states, actions, |actions|);
    InitMeasure(Init(cfg).workers);
    RunKeeps(cfg, states, actions, |actions|);
    if !states[|actions|].coordinator.Returned? { var a := NextStep(cfg, states[|actions|]); }
  }

  lemma {:induction false} RunMeasure(cfg: Config, states: seq<State>, actions: seq<Action>, k: nat)
    requires IsRun(cfg, states, actions) && k < |states|
    ensures Measure(states[k]) + k <= Measure(Init(cfg))
  {
    hide Apply, Enabled, Init, Measure, Inv;
    if k > 0 {
      RunMeasure(cfg, states, actions, k - 1);
      RunKeeps(cfg, states, actions, k - 1);
      StepDecreases(cfg, states[k - 1], actions[k - 1]);
    }
  }

  lemma {:induction false} InitMeasure(workers: seq<Phase>)
    requires forall i | 0 <= i < |workers| :: workers[i] == Unspawned
    ensures Sum(workers, Rank) == 6 * |workers|
  {
    if workers != [] { InitMeasure(workers[1..]); }
  }

  lemma NextStep(cfg: Config, s: State) returns (a: Action)
    requires Inv(cfg, s) && !s.coordinator.Returned?
    ensures Enabled(cfg, s, a)
  {
    CountZero(s.workers, Live);
    CountZero(s.workers, Holds);
    if i :| 0 <= i < |s.workers| && Holds(s.workers[i]) {
      assert s.workers[i] in s.workers;
      var p := s.workers[i];
      a := if p.Querying? then Query(i) else if p.Writing? then Write(i) else Release(i);
    } else if i :| 0 <= i < |s.workers| && Live(s.workers[i]) {
      a := if s.workers[i].Acquiring? then Acquire(i) else Done(i);
    } else {
      var c := s.coordinator;
      a := if c.Waiting? then Await else if c.next < |s.workers| then Spawn else EndSpawning;
    }
  }
}
