/** The streaming check as a state machine: the workers, the coordinator that spawns and awaits
    them, the WebSocket handler that consumes their results, and a context that may be cancelled
    at any moment. One step is one operation that other goroutines can observe. */
module StreamProtocol {
  import opened Collections
  import opened Dns
  import Summary

  const CHANNEL_CAPACITY := 64

  const DEFAULT_CONCURRENCY := 4

  /** The configured concurrency, or the default when it is not positive. */
  function EffectiveConcurrency(configured: int): (n: nat)
    ensures n > 0 && (configured > 0 ==> n == configured) && (configured <= 0 ==> n == 4)
  {
    if configured <= 0 then DEFAULT_CONCURRENCY else configured
  }

  datatype Config = Config(resolvers: seq<Resolver>, concurrency: int, save: bool)

  /** Where a worker is. `None` in the last three phases means that the result was dropped. */
  datatype Phase =
    | Unspawned
    | Acquiring
    | Querying
    | Sending(result: ResolverResult)
    | Locking(result: ResolverResult)
    | Appending(result: ResolverResult, snapshot: seq<ResolverResult>)
    | Unlocking(result: ResolverResult)
    | Releasing(outcome: Option<ResolverResult>)
    | Finishing(outcome: Option<ResolverResult>)
    | Exited(outcome: Option<ResolverResult>)

  datatype Coordinator =
    | Spawning(next: nat)
    | Waiting
    | Checking
    | Summarising
    | Persisting(summary: Summary.CheckSummary)
    | Announcing(summary: Summary.CheckSummary)
    | ClosingDone
    | ClosingResults
    | Stopped

  datatype Consumer =
    | Opening
    | Draining
    | Relaying(result: ResolverResult)
    | AwaitingDone
    | Concluding(summary: Summary.CheckSummary)
    | Closing
    | Leaving
    | Left

  datatype Frame =
    | TotalFrame(total: nat)
    | ResultFrame(result: ResolverResult)
    | DoneFrame(summary: Summary.CheckSummary)

  datatype Check = Check(results: seq<ResolverResult>, summary: Summary.CheckSummary)

  datatype State = State(
    workers: seq<Phase>,
    coordinator: Coordinator,
    consumer: Consumer,
    semaphore: nat,
    waitGroup: nat,
    mutex: Option<nat>,
    results: seq<ResolverResult>,
    resultCh: seq<ResolverResult>,
    resultClosed: bool,
    doneCh: seq<Summary.CheckSummary>,
    doneClosed: bool,
    cancelled: bool,
    saved: seq<Check>,
    frames: seq<Frame>,
    panicked: bool,
    sent: seq<ResolverResult>,     // history: everything ever sent on resultCh
    relayed: seq<ResolverResult>)  // history: everything written to the client as a result frame

  function Init(cfg: Config): State {
    State(seq(|cfg.resolvers|, _ => Unspawned), Spawning(0), Opening, 0, 0, None, [], [], false, [], false, false,
          [], [], false, [], [])
  }

  datatype WorkerOp =
    | Acquire
    | Query(result: ResolverResult)
    | Send
    | Drop
    | Lock
    | Append
    | Unlock
    | Release
    | Done

  datatype CoordinatorOp =
    | Spawn
    | EndSpawning
    | Await
    | CheckContext
    | Summarise(summary: Summary.CheckSummary)
    | Persist(stored: bool)
    | Announce
    | CloseDone
    | CloseResults

  datatype ConsumerOp =
    | WriteTotal(ok: bool)
    | Receive
    | EndRange
    | WriteResult(ok: bool)
    | ReceiveDone
    | MissDone
    | WriteDone(ok: bool)
    | CloseConnection
    | Leave

  datatype Action = Work(i: nat, work: WorkerOp) | Coordinate(duty: CoordinatorOp) | Consume(use: ConsumerOp) | Cancel

  /** When worker `i` can take the step; a worker with no enabled step is blocked. */
  predicate CanWork(cfg: Config, s: State, i: nat, op: WorkerOp) {
    && i < |s.workers| == |cfg.resolvers|
    && var p := s.workers[i];
       match op
       case Acquire => p.Acquiring? && s.semaphore < EffectiveConcurrency(cfg.concurrency)
       case Query(result) => p.Querying? && result.resolver == cfg.resolvers[i]
       case Send => p.Sending? && (s.resultClosed || |s.resultCh| < CHANNEL_CAPACITY)
       case Drop => p.Sending? && s.cancelled
       case Lock => p.Locking? && s.mutex == None
       case Append => p.Appending?
       case Unlock => p.Unlocking?
       case Release => p.Releasing? && s.semaphore > 0
       case Done => p.Finishing?
  }

  /** The phase worker `i` moves to. */
  function NextPhase(s: State, p: Phase, op: WorkerOp): Phase {
    match (p, op)
    case (Acquiring, Acquire) => Querying
    case (Querying, Query(result)) => Sending(result)
    case (Sending(result), Send) => Locking(result)
    case (Sending(_), Drop) => Releasing(None)
    case (Locking(result), Lock) => Appending(result, s.results)
    case (Appending(result, _), Append) => Unlocking(result)
    case (Unlocking(result), Unlock) => Releasing(Some(result))
    case (Releasing(outcome), Release) => Finishing(outcome)
    case (Finishing(outcome), Done) => Exited(outcome)
    case _ => p
  }

  /** The worker's step. Sending on a closed channel and a negative wait group panic. */
  function DoWork(cfg: Config, s: State, i: nat, op: WorkerOp): State
    requires CanWork(cfg, s, i, op)
  {
    if (op.Send? && s.resultClosed) || (op.Done? && s.waitGroup == 0) then s.(panicked := true)
    else
      var p := s.workers[i];
      var t := s.(workers := s.workers[i := NextPhase(s, p, op)]);
      match op
      case Acquire => t.(semaphore := s.semaphore + 1)
      case Query(_) => t
      case Send => t.(resultCh := s.resultCh + [p.result], sent := s.sent + [p.result])
      case Drop => t
      case Lock => t.(mutex := Some(i))
      case Append => t.(results := p.snapshot + [p.result])
      case Unlock => t.(mutex := None)
      case Release => t.(semaphore := s.semaphore - 1)
      case Done => t.(waitGroup := s.waitGroup - 1)
  }

  ghost predicate CanCoordinate(s: State, op: CoordinatorOp) {
    match op
    case Spawn => s.coordinator.Spawning? && s.coordinator.next < |s.workers|
    case EndSpawning => s.coordinator.Spawning? && s.coordinator.next == |s.workers|
    case Await => s.coordinator.Waiting? && s.waitGroup == 0
    case CheckContext => s.coordinator.Checking?
    case Summarise(summary) => s.coordinator.Summarising? && Summary.Summarizes(s.results, summary)
    case Persist(_) => s.coordinator.Persisting?
    case Announce => s.coordinator.Announcing? && (s.doneClosed || |s.doneCh| < 1)
    case CloseDone => s.coordinator.ClosingDone?
    case CloseResults => s.coordinator.ClosingResults?
  }

  /** The coordinator's step. Sending on or closing a closed channel panics. */
  function DoCoordinate(cfg: Config, s: State, op: CoordinatorOp): State
    requires CanCoordinate(s, op)
  {
    match op
    case Spawn =>
      var i := s.coordinator.next;
      s.(workers := s.workers[i := Acquiring], waitGroup := s.waitGroup + 1, coordinator := Spawning(i + 1))
    case EndSpawning => s.(coordinator := Waiting)
    case Await => s.(coordinator := Checking)
    case CheckContext => s.(coordinator := if s.cancelled then ClosingDone else Summarising)
    case Summarise(summary) => s.(coordinator := if cfg.save then Persisting(summary) else Announcing(summary))
    case Persist(stored) =>
      var summary := s.coordinator.summary;
      s.(coordinator := Announcing(summary), saved := if stored then s.saved + [Check(s.results, summary)] else s.saved)
    case Announce =>
      if s.doneClosed then s.(panicked := true)
      else s.(coordinator := ClosingDone, doneCh := s.doneCh + [s.coordinator.summary])
    case CloseDone =>
      if s.doneClosed then s.(panicked := true) else s.(coordinator := ClosingResults, doneClosed := true)
    case CloseResults =>
      if s.resultClosed then s.(panicked := true) else s.(coordinator := Stopped, resultClosed := true)
  }

  predicate CanConsume(s: State, op: ConsumerOp) {
    match op
    case WriteTotal(_) => s.consumer.Opening?
    case Receive => s.consumer.Draining? && s.resultCh != []
    case EndRange => s.consumer.Draining? && s.resultCh == [] && s.resultClosed
    case WriteResult(_) => s.consumer.Relaying?
    case ReceiveDone => s.consumer.AwaitingDone? && s.doneCh != []
    case MissDone => s.consumer.AwaitingDone? && s.doneCh == [] && s.doneClosed
    case WriteDone(_) => s.consumer.Concluding?
    case CloseConnection => s.consumer.Closing?
    case Leave => s.consumer.Leaving?
  }

  /** The handler's step. A failed write ends it; once it has returned, the context is cancelled. */
  function DoConsume(cfg: Config, s: State, op: ConsumerOp): State
    requires CanConsume(s, op)
  {
    match op
    case WriteTotal(ok) =>
      if ok then s.(consumer := Draining, frames := s.frames + [TotalFrame(|cfg.resolvers|)]) else s.(consumer := Leaving)
    case Receive => s.(consumer := Relaying(s.resultCh[0]), resultCh := s.resultCh[1..])
    case EndRange => s.(consumer := AwaitingDone)
    case WriteResult(ok) =>
      var result := s.consumer.result;
      if ok then s.(consumer := Draining, frames := s.frames + [ResultFrame(result)], relayed := s.relayed + [result])
      else s.(consumer := Leaving)
    case ReceiveDone => s.(consumer := Concluding(s.doneCh[0]), doneCh := s.doneCh[1..])
    case MissDone => s.(consumer := Closing)
    case WriteDone(ok) =>
      s.(consumer := Closing, frames := if ok then s.frames + [DoneFrame(s.consumer.summary)] else s.frames)
    case CloseConnection => s.(consumer := Leaving)
    case Leave => s.(consumer := Left, cancelled := true)
  }

  ghost predicate Enabled(cfg: Config, s: State, a: Action) {
    && !s.panicked
    && match a
       case Work(i, op) => CanWork(cfg, s, i, op)
       case Coordinate(op) => CanCoordinate(s, op)
       case Consume(op) => CanConsume(s, op)
       case Cancel => !s.cancelled
  }

  function Apply(cfg: Config, s: State, a: Action): State
    requires Enabled(cfg, s, a)
  {
    match a
    case Work(i, op) => DoWork(cfg, s, i, op)
    case Coordinate(op) => DoCoordinate(cfg, s, op)
    case Consume(op) => DoConsume(cfg, s, op)
    case Cancel => s.(cancelled := true)
  }

  /** A run: every state but the first is reached from its predecessor by one enabled step. */
  ghost predicate IsRun(cfg: Config, states: seq<State>, actions: seq<Action>) {
    && |states| == |actions| + 1
    && states[0] == Init(cfg)
    && forall k | 0 <= k < |actions| :: Enabled(cfg, states[k], actions[k]) && states[k + 1] == Apply(cfg, states[k], actions[k])
  }
}
