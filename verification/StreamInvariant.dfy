/** What every step of the streaming check keeps. */
module StreamInvariant {
  import opened Collections
  import opened Dns
  import opened StreamProtocol
  import Summary

  // --- Phases --------------------------------------------------------------------------------

  /** Counted by the wait group. */
  predicate Live(p: Phase) { !p.Unspawned? && !p.Exited? }

  /** Between taking and releasing a semaphore slot. */
  predicate Holds(p: Phase) { Live(p) && !p.Acquiring? && !p.Finishing? }

  predicate InMutex(p: Phase) { p.Appending? || p.Unlocking? }

  predicate Ended(p: Phase) { p.Releasing? || p.Finishing? || p.Exited? }

  predicate Dropped(p: Phase) { Ended(p) && p.outcome == None }

  /** The query result a worker carries, once it has one and unless it dropped it. */
  function Carried(p: Phase): Option<ResolverResult> {
    match p
    case Unspawned | Acquiring | Querying => None
    case Sending(result) => Some(result)
    case Locking(result) => Some(result)
    case Appending(result, _) => Some(result)
    case Unlocking(result) => Some(result)
    case Releasing(outcome) => outcome
    case Finishing(outcome) => outcome
    case Exited(outcome) => outcome
  }

  function Bag(o: Option<ResolverResult>): multiset<ResolverResult> {
    match o
    case None => multiset{}
    case Some(result) => multiset{result}
  }

  /** What the worker has put on the result channel so far. */
  function Sent(p: Phase): Option<ResolverResult> {
    if p.Sending? then None else Carried(p)
  }

  /** What the worker has appended to the accumulator so far. */
  function Recorded(p: Phase): Option<ResolverResult> {
    if p.Unlocking? || Ended(p) then Carried(p) else None
  }

  function SentBy(p: Phase): multiset<ResolverResult> { Bag(Sent(p)) }

  function RecordedBy(p: Phase): multiset<ResolverResult> { Bag(Recorded(p)) }

  // --- The invariant, part by part -----------------------------------------------------------

  /** The wait group and the semaphore count the workers they stand for. */
  ghost predicate Counters(cfg: Config, s: State) {
    && s.waitGroup == Count(s.workers, Live)
    && s.semaphore == Count(s.workers, Holds) <= EffectiveConcurrency(cfg.concurrency)
  }

  /** The mutex admits one worker, so what it read of the accumulator stays current. */
  ghost predicate Exclusion(s: State) {
    && (s.mutex.Some? ==> s.mutex.value < |s.workers| && InMutex(s.workers[s.mutex.value]))
    && (forall i | 0 <= i < |s.workers| && InMutex(s.workers[i]) :: s.mutex == Some(i))
    && (forall i | 0 <= i < |s.workers| && s.workers[i].Appending? :: s.workers[i].snapshot == s.results)
  }

  /** Results are conserved: the channel has carried, and the accumulator holds, exactly what the
      workers sent and recorded. */
  ghost predicate Conservation(s: State) {
    && multiset(s.sent) == Gather(s.workers, SentBy)
    && multiset(s.results) == Gather(s.workers, RecordedBy)
  }

  /** Worker `i` queries resolver `i`, and drops its result only once the context is cancelled. */
  ghost predicate Attribution(cfg: Config, s: State) {
    && |s.workers| == |cfg.resolvers|
    && (forall i | 0 <= i < |s.workers| && Carried(s.workers[i]).Some? ::
          Carried(s.workers[i]).value.resolver == cfg.resolvers[i])
    && (!s.cancelled ==> forall i | 0 <= i < |s.workers| :: !Dropped(s.workers[i]))
  }

  predicate AllExited(workers: seq<Phase>) {
    forall i | 0 <= i < |workers| :: workers[i].Exited?
  }

  predicate AllRecorded(workers: seq<Phase>) {
    forall i | 0 <= i < |workers| :: workers[i].Exited? && workers[i].outcome.Some?
  }

  /** The coordinator spawns the workers in order and moves on only after all have exited. */
  ghost predicate Coordination(s: State) {
    match s.coordinator
    case Spawning(next) => next <= |s.workers| && forall i | 0 <= i < |s.workers| :: s.workers[i].Unspawned? <==> i >= next
    case Waiting => forall i | 0 <= i < |s.workers| :: !s.workers[i].Unspawned?
    case _ => AllExited(s.workers)
  }

  /** Channels are closed by the coordinator's last two steps, doneCh first; the handler awaits the
      summary only after the result channel closed, and a handler that returned cancels the context. */
  ghost predicate Closure(s: State) {
    && (s.resultClosed <==> s.coordinator.Stopped?)
    && (s.doneClosed <==> s.coordinator.ClosingResults? || s.coordinator.Stopped?)
    && |s.resultCh| <= CHANNEL_CAPACITY
    && |s.doneCh| <= 1
    && (s.doneCh != [] ==> s.coordinator.ClosingDone? || s.doneClosed)
    && (s.consumer.AwaitingDone? || s.consumer.Concluding? ==> s.resultClosed)
    && (s.consumer.Left? ==> s.cancelled)
    && !s.panicked
  }

  /** `summary` summarises results that every worker has recorded. */
  ghost predicate Complete(workers: seq<Phase>, results: seq<ResolverResult>, summary: Summary.CheckSummary) {
    AllRecorded(workers) && Summary.Summarizes(results, summary)
  }

  /** Summaries exist only of complete results. */
  ghost predicate Commitment(s: State) {
    && (s.coordinator.Summarising? ==> AllRecorded(s.workers))
    && (s.coordinator.Persisting? || s.coordinator.Announcing? ==> Complete(s.workers, s.results, s.coordinator.summary))
    && (forall summary | summary in s.doneCh :: Complete(s.workers, s.results, summary))
    && (forall check | check in s.saved :: Complete(s.workers, s.results, check.summary) && check.results == s.results)
    && (s.consumer.Concluding? ==> Complete(s.workers, s.results, s.consumer.summary))
    && (forall frame | frame in s.frames && frame.DoneFrame? :: Complete(s.workers, s.results, frame.summary))
  }

  function ResultFrames(results: seq<ResolverResult>): (frames: seq<Frame>)
    ensures |frames| == |results|
  {
    seq(|results|, i requires 0 <= i < |results| => ResultFrame(results[i]))
  }

  /** The frames written before a done frame. */
  function Opened(cfg: Config, relayed: seq<ResolverResult>): seq<Frame> {
    [TotalFrame(|cfg.resolvers|)] + ResultFrames(relayed)
  }

  predicate Concluded(cfg: Config, s: State) {
    && |s.frames| == |s.relayed| + 2
    && s.frames[..|s.relayed| + 1] == Opened(cfg, s.relayed)
    && s.frames[|s.relayed| + 1].DoneFrame?
    && s.relayed == s.sent
  }

  /** The frames written so far, against what the channel has carried. */
  ghost predicate Transcript(cfg: Config, s: State) {
    match s.consumer
    case Opening => s.frames == [] && s.relayed == [] && s.sent == s.resultCh
    case Draining => s.frames == Opened(cfg, s.relayed) && s.sent == s.relayed + s.resultCh
    case Relaying(result) => s.frames == Opened(cfg, s.relayed) && s.sent == s.relayed + [result] + s.resultCh
    case AwaitingDone => s.frames == Opened(cfg, s.relayed) && s.sent == s.relayed
    case Concluding(_) => s.frames == Opened(cfg, s.relayed) && s.sent == s.relayed
    case _ =>
      && s.relayed <= s.sent
      && ((s.frames == [] && s.relayed == []) || s.frames == Opened(cfg, s.relayed) || Concluded(cfg, s))
  }

  ghost predicate Inv(cfg: Config, s: State) {
    && Counters(cfg, s)
    && Exclusion(s)
    && Conservation(s)
    && Attribution(cfg, s)
    && Coordination(s)
    && Closure(s)
    && Commitment(s)
    && Transcript(cfg, s)
  }

  // --- It holds at the start and every step keeps it -----------------------------------------

  lemma InitHolds(cfg: Config)
    ensures Inv(cfg, Init(cfg))
  {
    var s := Init(cfg);
    CountZero(s.workers, Live);
    CountZero(s.workers, Holds);
    GatherNothing(s.workers, SentBy);
    GatherNothing(s.workers, RecordedBy);
    hide Count, Gather;
  }

  lemma {:induction false} GatherNothing(workers: seq<Phase>, f: Phase -> multiset<ResolverResult>)
    requires forall p | p in workers :: f(p) == multiset{}
    ensures Gather(workers, f) == multiset{}
  {
    if workers != [] { GatherNothing(workers[1..], f); }
  }

  // Each part is kept by the three kinds of goroutine in turn, from the parts it needs.

  lemma WorkerKeepsCounters(cfg: Config, s: State, i: nat, op: WorkerOp)
    requires CanWork(cfg, s, i, op) && Counters(cfg, s)
    ensures Counters(cfg, DoWork(cfg, s, i, op))
  {
    var p := NextPhase(s, s.workers[i], op);
    CountUpdate(s.workers, i, p, Live);
    CountUpdate(s.workers, i, p, Holds);
  }

  lemma CoordinatorKeepsCounters(cfg: Config, s: State, op: CoordinatorOp)
    requires CanCoordinate(s, op) && Counters(cfg, s) && Coordination(s)
    ensures Counters(cfg, DoCoordinate(cfg, s, op))
  {
    if op.Spawn? {
      CountUpdate(s.workers, s.coordinator.next, Acquiring, Live);
      CountUpdate(s.workers, s.coordinator.next, Acquiring, Holds);
    }
  }

  lemma WorkerKeepsExclusion(cfg: Config, s: State, i: nat, op: WorkerOp)
    requires CanWork(cfg, s, i, op) && Exclusion(s)
    ensures Exclusion(DoWork(cfg, s, i, op))
  {
  }

  lemma CoordinatorKeepsExclusion(cfg: Config, s: State, op: CoordinatorOp)
    requires CanCoordinate(s, op) && Exclusion(s) && Coordination(s)
    ensures Exclusion(DoCoordinate(cfg, s, op))
  {
  }

  lemma WorkerKeepsConservation(cfg: Config, s: State, i: nat, op: WorkerOp)
    requires CanWork(cfg, s, i, op) && Exclusion(s) && Conservation(s)
    ensures Conservation(DoWork(cfg, s, i, op))
  {
    var p, q := s.workers[i], NextPhase(s, s.workers[i], op);
    WorkerEffect(cfg, s, i, op);
    PhaseEffect(cfg, s, i, op);
    hide DoWork, CanWork, NextPhase, Sent, Recorded, Gather;
    if op.Send? { GatherGain(s.workers, i, q, SentBy); } else { GatherKeep(s.workers, i, q, SentBy); }
    if op.Append? { GatherGain(s.workers, i, q, RecordedBy); } else { GatherKeep(s.workers, i, q, RecordedBy); }
  }

  /** A worker's step changes its own phase, adds to the channel's history when it sends, and extends
      the accumulator it read when it appends. */
  lemma WorkerEffect(cfg: Config, s: State, i: nat, op: WorkerOp)
    requires CanWork(cfg, s, i, op)
    ensures var p, t := s.workers[i], DoWork(cfg, s, i, op);
            && t.coordinator == s.coordinator && t.cancelled == s.cancelled
            && (t.workers == s.workers[i := NextPhase(s, p, op)] || (t.workers, t.sent, t.results) == (s.workers, s.sent, s.results))
            && (t.workers != s.workers && op.Send? ==> t.sent == s.sent + [Carried(p).value])
            && (!op.Send? ==> t.sent == s.sent)
            && (op.Append? ==> p.Appending? && t.workers != s.workers && t.results == p.snapshot + [Carried(p).value])
            && (!op.Append? ==> t.results == s.results)
  {
  }

  lemma PhaseEffect(cfg: Config, s: State, i: nat, op: WorkerOp)
    requires CanWork(cfg, s, i, op)
    ensures var p, q := s.workers[i], NextPhase(s, s.workers[i], op);
            && (if op.Send? then Sent(p) == None && Sent(q) == Some(Carried(p).value) else Sent(q) == Sent(p))
            && (if op.Append? then Recorded(p) == None && Recorded(q) == Some(Carried(p).value) else Recorded(q) == Recorded(p))
            && !p.Unspawned? && !q.Unspawned? && !p.Exited?
            && (Carried(q).Some? ==> Carried(q).value.resolver == cfg.resolvers[i] || Carried(q) == Carried(p))
            && (Dropped(q) ==> s.cancelled || Dropped(p))
  {
  }

  lemma CoordinatorKeepsConservation(cfg: Config, s: State, op: CoordinatorOp)
    requires CanCoordinate(s, op) && Coordination(s) && Conservation(s)
    ensures Conservation(DoCoordinate(cfg, s, op))
  {
    hide DoCoordinate, CanCoordinate, Coordination, Gather, SentBy, RecordedBy;
    CoordinatorEffect(cfg, s, op);
    SpawnedCarriesNothing();
    if op.Spawn? {
      GatherKeep(s.workers, s.coordinator.next, Acquiring, SentBy);
      GatherKeep(s.workers, s.coordinator.next, Acquiring, RecordedBy);
    }
  }

  lemma SpawnedCarriesNothing()
    ensures SentBy(Unspawned) == SentBy(Acquiring) && RecordedBy(Unspawned) == RecordedBy(Acquiring)
  {
  }

  /** Of what the workers and the handler own, the coordinator changes only the worker it spawns. */
  lemma CoordinatorEffect(cfg: Config, s: State, op: CoordinatorOp)
    requires CanCoordinate(s, op) && Coordination(s)
    ensures var t := DoCoordinate(cfg, s, op);
            && t.sent == s.sent && t.results == s.results && t.resultCh == s.resultCh
            && t.consumer == s.consumer && t.cancelled == s.cancelled
            && if op.Spawn? then
                 && s.coordinator.Spawning? && s.coordinator.next < |s.workers|
                 && s.workers[s.coordinator.next].Unspawned?
                 && t.workers == s.workers[s.coordinator.next := Acquiring]
                 && t.coordinator.Spawning?
               else t.workers == s.workers
  {
    hide Summary.Summarizes;
  }

  lemma WorkerKeepsAttribution(cfg: Config, s: State, i: nat, op: WorkerOp)
    requires CanWork(cfg, s, i, op) && Attribution(cfg, s)
    ensures Attribution(cfg, DoWork(cfg, s, i, op))
  {
    hide DoWork, NextPhase, Carried, Dropped;
    WorkerEffect(cfg, s, i, op);
    PhaseEffect(cfg, s, i, op);
  }

  lemma CoordinatorKeepsAttribution(cfg: Config, s: State, op: CoordinatorOp)
    requires CanCoordinate(s, op) && Attribution(cfg, s)
    ensures Attribution(cfg, DoCoordinate(cfg, s, op))
  {
    hide Summary.Summarizes;
  }

  lemma WorkerKeepsCoordination(cfg: Config, s: State, i: nat, op: WorkerOp)
    requires CanWork(cfg, s, i, op) && Coordination(s)
    ensures Coordination(DoWork(cfg, s, i, op))
  {
    hide DoWork, NextPhase;
    WorkerEffect(cfg, s, i, op);
    PhaseEffect(cfg, s, i, op);
  }

  lemma CoordinatorKeepsCoordination(cfg: Config, s: State, op: CoordinatorOp)
    requires CanCoordinate(s, op) && Counters(cfg, s) && Coordination(s)
    ensures Coordination(DoCoordinate(cfg, s, op))
  {
    if op.Await? {
      CountZero(s.workers, Live);
      forall i | 0 <= i < |s.workers| ensures s.workers[i].Exited? {
        assert !Live(s.workers[i]);
      }
    }
  }

  lemma WorkerKeepsClosure(cfg: Config, s: State, i: nat, op: WorkerOp)
    requires CanWork(cfg, s, i, op) && Counters(cfg, s) && Coordination(s) && Closure(s)
    ensures Closure(DoWork(cfg, s, i, op))
  {
    CountZero(s.workers, Live);
    assert s.workers[i] in s.workers && Live(s.workers[i]);
  }

  lemma CoordinatorKeepsClosure(cfg: Config, s: State, op: CoordinatorOp)
    requires CanCoordinate(s, op) && Closure(s)
    ensures Closure(DoCoordinate(cfg, s, op))
  {
  }

  lemma ConsumerKeepsClosure(cfg: Config, s: State, op: ConsumerOp)
    requires CanConsume(s, op) && Closure(s)
    ensures Closure(DoConsume(cfg, s, op))
  {
  }

  lemma WorkerKeepsCommitment(cfg: Config, s: State, i: nat, op: WorkerOp)
    requires CanWork(cfg, s, i, op) && Coordination(s) && Commitment(s)
    ensures Commitment(DoWork(cfg, s, i, op))
  {
    hide Summary.Summarizes;
    assert !AllRecorded(s.workers) by { assert !s.workers[i].Exited?; }
  }

  lemma CoordinatorKeepsCommitment(cfg: Config, s: State, op: CoordinatorOp)
    requires CanCoordinate(s, op) && Attribution(cfg, s) && Coordination(s) && Closure(s) && Commitment(s)
    ensures Commitment(DoCoordinate(cfg, s, op))
  {
    hide Summary.Summarizes;
    if op.Spawn? {
      assert !AllRecorded(s.workers) by { assert !s.workers[s.coordinator.next].Exited?; }
    }
    if op.CheckContext? && !s.cancelled {
      forall i | 0 <= i < |s.workers| ensures s.workers[i].outcome.Some? {
        assert !Dropped(s.workers[i]);
      }
    }
  }

  lemma ConsumerKeepsCommitment(cfg: Config, s: State, op: ConsumerOp)
    requires CanConsume(s, op) && Commitment(s)
    ensures Commitment(DoConsume(cfg, s, op))
  {
    hide Complete;
  }

  lemma ConcludedAfterAll(cfg: Config, s: State)
    requires Commitment(s)
    ensures Concluded(cfg, s) ==> AllRecorded(s.workers)
  {
    if Concluded(cfg, s) { assert s.frames[|s.relayed| + 1] in s.frames; }
  }

  lemma WorkerKeepsTranscript(cfg: Config, s: State, i: nat, op: WorkerOp)
    requires CanWork(cfg, s, i, op) && Coordination(s) && Closure(s) && Commitment(s) && Transcript(cfg, s)
    ensures Transcript(cfg, DoWork(cfg, s, i, op))
  {
    hide Summary.Summarizes;
    ConcludedAfterAll(cfg, s);
    assert !AllRecorded(s.workers) by { assert !s.workers[i].Exited?; }
    assert !s.resultClosed;
  }

  lemma ConsumerKeepsTranscript(cfg: Config, s: State, op: ConsumerOp)
    requires CanConsume(s, op) && Closure(s) && Transcript(cfg, s)
    ensures Transcript(cfg, DoConsume(cfg, s, op))
  {
    match op
    case Receive => ReceivingKeepsTranscript(cfg, s);
    case WriteResult(ok) => RelayingKeepsTranscript(cfg, s, ok);
    case _ => HandlerKeepsTranscript(cfg, s, op);
  }

  lemma ReceivingKeepsTranscript(cfg: Config, s: State)
    requires CanConsume(s, Receive) && Transcript(cfg, s)
    ensures Transcript(cfg, DoConsume(cfg, s, Receive))
  {
    hide Opened;
    assert s.resultCh == [s.resultCh[0]] + s.resultCh[1..];
  }

  lemma RelayingKeepsTranscript(cfg: Config, s: State, ok: bool)
    requires CanConsume(s, WriteResult(ok)) && Transcript(cfg, s)
    ensures Transcript(cfg, DoConsume(cfg, s, WriteResult(ok)))
  {
    hide Opened;
    OpenedSnoc(cfg, s.relayed, s.consumer.result);
  }

  lemma HandlerKeepsTranscript(cfg: Config, s: State, op: ConsumerOp)
    requires CanConsume(s, op) && Closure(s) && Transcript(cfg, s) && !op.Receive? && !op.WriteResult?
    ensures Transcript(cfg, DoConsume(cfg, s, op))
  {
    hide Summary.Summarizes, ResultFrames;
    NoResultFrames();
    if op.WriteDone? {
      assert (s.frames + [DoneFrame(s.consumer.summary)])[..|s.relayed| + 1] == s.frames;
    }
  }

  lemma NoResultFrames()
    ensures ResultFrames([]) == []
  {
  }

  lemma OpenedSnoc(cfg: Config, relayed: seq<ResolverResult>, result: ResolverResult)
    ensures Opened(cfg, relayed + [result]) == Opened(cfg, relayed) + [ResultFrame(result)]
  {
    assert ResultFrames(relayed + [result]) == ResultFrames(relayed) + [ResultFrame(result)];
  }

  lemma CoordinatorKeepsTranscript(cfg: Config, s: State, op: CoordinatorOp)
    requires CanCoordinate(s, op) && Transcript(cfg, s)
    ensures Transcript(cfg, DoCoordinate(cfg, s, op))
  {
  }

  /** The parts about workers do not look at the consumer's side. */
  lemma WorkerPartsFrame(cfg: Config, s: State, t: State)
    requires Counters(cfg, s) && Exclusion(s) && Conservation(s) && Attribution(cfg, s) && Coordination(s)
    requires t.workers == s.workers && t.coordinator == s.coordinator && t.mutex == s.mutex
    requires t.semaphore == s.semaphore && t.waitGroup == s.waitGroup
    requires t.results == s.results && t.sent == s.sent && (s.cancelled ==> t.cancelled)
    ensures Counters(cfg, t) && Exclusion(t) && Conservation(t) && Attribution(cfg, t) && Coordination(t)
  {
  }

  lemma ConsumerFrame(cfg: Config, s: State, op: ConsumerOp)
    requires CanConsume(s, op)
    ensures var t := DoConsume(cfg, s, op);
            && t.workers == s.workers && t.coordinator == s.coordinator && t.mutex == s.mutex
            && t.semaphore == s.semaphore && t.waitGroup == s.waitGroup
            && t.results == s.results && t.sent == s.sent && (s.cancelled ==> t.cancelled)
  {
  }

  /** The other parts do not look at the context, except when the handler has returned. */
  lemma ConsumerPartsFrame(cfg: Config, s: State, t: State)
    requires Closure(s) && Commitment(s) && Transcript(cfg, s)
    requires t.workers == s.workers && t.coordinator == s.coordinator && t.consumer == s.consumer
    requires t.results == s.results && t.resultCh == s.resultCh && t.resultClosed == s.resultClosed
    requires t.doneCh == s.doneCh && t.doneClosed == s.doneClosed && t.saved == s.saved
    requires t.frames == s.frames && t.sent == s.sent && t.relayed == s.relayed && t.panicked == s.panicked
    requires t.cancelled
    ensures Closure(t) && Commitment(t) && Transcript(cfg, t)
  {
    hide Complete, ResultFrames;
  }

  lemma CancellingKeeps(cfg: Config, s: State)
    requires Inv(cfg, s)
    ensures Inv(cfg, s.(cancelled := true))
  {
    WorkerPartsFrame(cfg, s, s.(cancelled := true));
    ConsumerPartsFrame(cfg, s, s.(cancelled := true));
    hide Counters, Exclusion, Conservation, Attribution, Coordination, Closure, Commitment, Transcript;
  }

  lemma WorkerKeeps(cfg: Config, s: State, i: nat, op: WorkerOp)
    requires Inv(cfg, s) && CanWork(cfg, s, i, op)
    ensures Inv(cfg, DoWork(cfg, s, i, op))
  {
    WorkerKeepsCounters(cfg, s, i, op);
    WorkerKeepsExclusion(cfg, s, i, op);
    WorkerKeepsConservation(cfg, s, i, op);
    WorkerKeepsAttribution(cfg, s, i, op);
    WorkerKeepsCoordination(cfg, s, i, op);
    WorkerKeepsClosure(cfg, s, i, op);
    WorkerKeepsCommitment(cfg, s, i, op);
    WorkerKeepsTranscript(cfg, s, i, op);
    hide DoWork, CanWork;
    hide Counters, Exclusion, Conservation, Attribution, Coordination, Closure, Commitment, Transcript;
  }

  lemma CoordinatorKeeps(cfg: Config, s: State, op: CoordinatorOp)
    requires Inv(cfg, s) && CanCoordinate(s, op)
    ensures Inv(cfg, DoCoordinate(cfg, s, op))
  {
    CoordinatorKeepsCounters(cfg, s, op);
    CoordinatorKeepsExclusion(cfg, s, op);
    CoordinatorKeepsConservation(cfg, s, op);
    CoordinatorKeepsAttribution(cfg, s, op);
    CoordinatorKeepsCoordination(cfg, s, op);
    CoordinatorKeepsClosure(cfg, s, op);
    CoordinatorKeepsCommitment(cfg, s, op);
    CoordinatorKeepsTranscript(cfg, s, op);
    hide DoCoordinate, CanCoordinate;
    hide Counters, Exclusion, Conservation, Attribution, Coordination, Closure, Commitment, Transcript;
  }

  lemma ConsumerKeeps(cfg: Config, s: State, op: ConsumerOp)
    requires Inv(cfg, s) && CanConsume(s, op)
    ensures Inv(cfg, DoConsume(cfg, s, op))
  {
    ConsumerFrame(cfg, s, op);
    WorkerPartsFrame(cfg, s, DoConsume(cfg, s, op));
    ConsumerKeepsClosure(cfg, s, op);
    ConsumerKeepsCommitment(cfg, s, op);
    ConsumerKeepsTranscript(cfg, s, op);
    hide DoConsume, CanConsume;
    hide Counters, Exclusion, Conservation, Attribution, Coordination, Closure, Commitment, Transcript;
  }

  /** Every step of every goroutine, and cancellation, keeps the invariant. */
  lemma StepKeeps(cfg: Config, s: State, a: Action)
    requires Inv(cfg, s) && Enabled(cfg, s, a)
    ensures Inv(cfg, Apply(cfg, s, a))
  {
    hide Inv;
    match a
    case Work(i, op) => WorkerKeeps(cfg, s, i, op);
    case Coordinate(op) => CoordinatorKeeps(cfg, s, op);
    case Consume(op) => ConsumerKeeps(cfg, s, op);
    case Cancel => CancellingKeeps(cfg, s);
  }

  /** Hence every state of every run satisfies it. */
  lemma {:induction false} RunKeeps(cfg: Config, states: seq<State>, actions: seq<Action>, k: nat)
    requires IsRun(cfg, states, actions) && k < |states|
    ensures Inv(cfg, states[k])
  {
    hide Inv, Apply, Enabled;
    if k == 0 {
      InitHolds(cfg);
    } else {
      RunKeeps(cfg, states, actions, k - 1);
      StepKeeps(cfg, states[k - 1], actions[k - 1]);
    }
  }
}
