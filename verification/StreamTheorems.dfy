/** What a client of the streaming check can rely on, whatever the schedule. */
module StreamTheorems {
  import opened Collections
  import opened Dns
  import opened StreamProtocol
  import opened StreamInvariant
  import Summary
  import SummaryLaws
  import FanOut
  import StreamSaving

  // --- Safety --------------------------------------------------------------------------------

  /** No send on a closed channel, no double close, no negative wait group, at most the configured
      number of workers between taking and releasing a slot, and a bounded channel. */
  lemma NeverPanics(cfg: Config, states: seq<State>, actions: seq<Action>, k: nat)
    requires IsRun(cfg, states, actions) && k < |states|
    ensures !states[k].panicked
    ensures Count(states[k].workers, Holds) <= EffectiveConcurrency(cfg.concurrency)
    ensures |states[k].resultCh| <= CHANNEL_CAPACITY && |states[k].doneCh| <= 1
  {
    RunKeeps(cfg, states, actions, k);
  }

  /** `results` holds exactly one result for every resolver of the list. */
  ghost predicate OnePerResolver(cfg: Config, results: seq<ResolverResult>) {
    exists outcomes :: IsOutcomes(cfg, outcomes) && multiset(outcomes) == multiset(results)
  }

  ghost predicate IsOutcomes(cfg: Config, outcomes: seq<ResolverResult>) {
    && |outcomes| == |cfg.resolvers|
    && forall i | 0 <= i < |outcomes| :: outcomes[i].resolver == cfg.resolvers[i]
  }

  /** `summary` has left the coordinator: it was put on the done channel, stored, or written out. */
  ghost predicate Published(s: State, summary: Summary.CheckSummary) {
    || summary in s.doneCh
    || (exists check :: check in s.saved && check.summary == summary)
    || DoneFrame(summary) in s.frames
  }

  function Outcomes(workers: seq<Phase>): (outcomes: seq<ResolverResult>)
    requires AllRecorded(workers)
    ensures |outcomes| == |workers|
    ensures forall i | 0 <= i < |workers| :: outcomes[i] == workers[i].outcome.value
  {
    if workers == [] then [] else [workers[0].outcome.value] + Outcomes(workers[1..])
  }

  lemma {:induction false} GatherOutcomes(workers: seq<Phase>, f: Phase -> multiset<ResolverResult>)
    requires AllRecorded(workers)
    requires forall i | 0 <= i < |workers| :: f(workers[i]) == multiset{workers[i].outcome.value}
    ensures Gather(workers, f) == multiset(Outcomes(workers))
  {
    if workers != [] {
      GatherOutcomes(workers[1..], f);
      OutcomesCons(workers);
    }
  }

  lemma OutcomesCons(workers: seq<Phase>)
    requires AllRecorded(workers) && workers != []
    ensures multiset(Outcomes(workers)) == multiset{workers[0].outcome.value} + multiset(Outcomes(workers[1..]))
  {
  }

  /** Cancellation at any point notwithstanding, a published summary and a stored check cover every
      resolver of the list exactly once. */
  lemma PublishedIsComplete(cfg: Config, states: seq<State>, actions: seq<Action>, k: nat, summary: Summary.CheckSummary)
    requires IsRun(cfg, states, actions) && k < |states| && Published(states[k], summary)
    ensures var s := states[k];
            && OnePerResolver(cfg, s.results)
            && Summary.Summarizes(s.results, summary)
            && summary.total == |cfg.resolvers|
            && forall check | check in s.saved :: check.results == s.results && Summary.Summarizes(check.results, check.summary)
  {
    RunKeeps(cfg, states, actions, k);
    CompleteCoversAll(cfg, states[k], summary);
  }

  lemma CompleteCoversAll(cfg: Config, s: State, summary: Summary.CheckSummary)
    requires Conservation(s) && Attribution(cfg, s) && Complete(s.workers, s.results, summary)
    ensures OnePerResolver(cfg, s.results) && summary.total == |cfg.resolvers|
    ensures multiset(s.sent) == multiset(s.results) && Summary.Summarizes(s.results, summary)
  {
    hide Summary.Summarizes, Conservation, Attribution, Outcomes, AllRecorded;
    SummaryLaws.TotalIsLength(s.results, summary);
    BagsAgree(s);
    OutcomesAttributed(cfg, s);
    PermutationMembers(Outcomes(s.workers), s.results);
  }

  lemma BagsAgree(s: State)
    requires Conservation(s) && AllRecorded(s.workers)
    ensures multiset(s.sent) == multiset(s.results) == multiset(Outcomes(s.workers))
  {
    hide Gather, Outcomes;
    GatherOutcomes(s.workers, SentBy);
    GatherOutcomes(s.workers, RecordedBy);
  }

  lemma OutcomesAttributed(cfg: Config, s: State)
    requires Attribution(cfg, s) && AllRecorded(s.workers)
    ensures IsOutcomes(cfg, Outcomes(s.workers))
  {
    var outcomes := Outcomes(s.workers);
    forall i | 0 <= i < |outcomes| ensures outcomes[i].resolver == cfg.resolvers[i] {
      assert Carried(s.workers[i]).Some?;
    }
  }

  function From(resolver: Resolver): ResolverResult -> bool { (r: ResolverResult) => r.resolver == resolver }

  function Is(resolver: Resolver): Resolver -> bool { (r: Resolver) => r == resolver }

  /** What the workers have sent, in the order of the workers. */
  function SentInOrder(workers: seq<Phase>): seq<ResolverResult> {
    if workers == [] then []
    else (match Sent(workers[0]) case Some(r) => [r] case None => []) + SentInOrder(workers[1..])
  }

  lemma {:induction false} GatherSent(workers: seq<Phase>)
    ensures Gather(workers, SentBy) == multiset(SentInOrder(workers))
  {
    hide Sent;
    if workers != [] { GatherSent(workers[1..]); }
  }

  lemma {:induction false} SentOncePerWorker(workers: seq<Phase>, resolvers: seq<Resolver>, r: Resolver)
    requires |workers| == |resolvers|
    requires forall i | 0 <= i < |workers| && Carried(workers[i]).Some? :: Carried(workers[i]).value.resolver == resolvers[i]
    ensures Count(SentInOrder(workers), From(r)) <= Count(resolvers, Is(r))
  {
    if workers != [] {
      SentOncePerWorker(workers[1..], resolvers[1..], r);
      var first := match Sent(workers[0]) case Some(x) => [x] case None => [];
      CountConcat(first, SentInOrder(workers[1..]), From(r));
      assert Carried(workers[0]).Some? ==> Carried(workers[0]).value.resolver == resolvers[0];
    }
  }

  lemma RelayedOncePerPosition(cfg: Config, s: State, r: Resolver)
    requires Conservation(s) && Attribution(cfg, s) && s.relayed <= s.sent
    ensures Count(s.relayed, From(r)) <= Count(cfg.resolvers, Is(r))
  {
    SentOncePerWorker(s.workers, cfg.resolvers, r);
    GatherSent(s.workers);
    hide Count, Gather, SentInOrder, Carried;
    CountPermutation(s.sent, SentInOrder(s.workers), From(r));
    CountPrefix(s.relayed, s.sent, From(r));
  }

  /** The frames of a run: one total, then results, at most one for each position of a resolver in the
      list, then at most one done; a done frame comes after exactly as many result frames as the total
      announced, which are a rearrangement of the results its summary was computed from. */
  lemma FrameOrder(cfg: Config, states: seq<State>, actions: seq<Action>, k: nat)
    requires IsRun(cfg, states, actions) && k < |states|
    ensures var s := states[k];
            || s.frames == []
            || s.frames == [TotalFrame(|cfg.resolvers|)] + ResultFrames(s.relayed)
            || exists summary :: DoneWith(cfg, s, summary)
    ensures forall r :: Count(states[k].relayed, From(r)) <= Count(cfg.resolvers, Is(r))
  {
    RunKeeps(cfg, states, actions, k);
    var s := states[k];
    hide Conservation, Attribution, Commitment, Gather, Count;
    assert s.relayed <= s.sent;
    forall r ensures Count(s.relayed, From(r)) <= Count(cfg.resolvers, Is(r)) {
      RelayedOncePerPosition(cfg, s, r);
    }
    if Concluded(cfg, s) {
      var summary := ConcludedIsDone(cfg, s);
    }
  }

  ghost predicate DoneWith(cfg: Config, s: State, summary: Summary.CheckSummary) {
    && s.frames == [TotalFrame(|cfg.resolvers|)] + ResultFrames(s.relayed) + [DoneFrame(summary)]
    && |s.relayed| == |cfg.resolvers|
    && OnePerResolver(cfg, s.relayed)
    && multiset(s.relayed) == multiset(s.results)
    && Summary.Summarizes(s.results, summary)
  }

  lemma ConcludedIsDone(cfg: Config, s: State) returns (summary: Summary.CheckSummary)
    requires Conservation(s) && Attribution(cfg, s) && Commitment(s) && Concluded(cfg, s)
    ensures DoneWith(cfg, s, summary)
  {
    summary := ConcludingFrame(cfg, s);
    assert Complete(s.workers, s.results, summary);
    hide Commitment, Complete, ResultFrames, OnePerResolver;
    CompleteCoversAll(cfg, s, summary);
    hide Conservation, Attribution;
    OnePerResolverSize(cfg, s);
    OnePerResolverOf(cfg, s.results, s.relayed);
  }

  lemma ConcludingFrame(cfg: Config, s: State) returns (summary: Summary.CheckSummary)
    requires Concluded(cfg, s)
    ensures DoneFrame(summary) in s.frames
    ensures s.frames == [TotalFrame(|cfg.resolvers|)] + ResultFrames(s.relayed) + [DoneFrame(summary)]
  {
    hide ResultFrames;
    var last := s.frames[|s.relayed| + 1];
    summary := last.summary;
    assert s.frames == s.frames[..|s.relayed| + 1] + [DoneFrame(summary)];
  }

  lemma OnePerResolverOf(cfg: Config, a: seq<ResolverResult>, b: seq<ResolverResult>)
    requires OnePerResolver(cfg, a) && multiset(a) == multiset(b)
    ensures OnePerResolver(cfg, b)
  {
    var outcomes :| IsOutcomes(cfg, outcomes) && multiset(outcomes) == multiset(a);
    assert multiset(outcomes) == multiset(b);
  }

  lemma OnePerResolverSize(cfg: Config, s: State)
    requires OnePerResolver(cfg, s.results) && multiset(s.sent) == multiset(s.results)
    ensures |s.sent| == |cfg.resolvers|
  {
    var outcomes :| IsOutcomes(cfg, outcomes) && multiset(outcomes) == multiset(s.results);
    PermutationMembers(outcomes, s.sent);
  }

  // --- Termination ---------------------------------------------------------------------------

  function WorkerRank(p: Phase): nat {
    match p
    case Unspawned => 12
    case Acquiring => 11
    case Querying => 10
    case Sending(_) => 9
    case Locking(_) => 6
    case Appending(_, _) => 5
    case Unlocking(_) => 4
    case Releasing(_) => 3
    case Finishing(_) => 2
    case Exited(_) => 0
  }

  function CoordinatorRank(c: Coordinator): nat {
    match c
    case Spawning(_) => 9
    case Waiting => 8
    case Checking => 7
    case Summarising => 6
    case Persisting(_) => 5
    case Announcing(_) => 4
    case ClosingDone => 3
    case ClosingResults => 2
    case Stopped => 0
  }

  function ConsumerRank(c: Consumer): nat {
    match c
    case Opening => 8
    case Relaying(_) => 7
    case Draining => 6
    case AwaitingDone => 5
    case Concluding(_) => 4
    case Closing => 3
    case Leaving => 2
    case Left => 0
  }

  /** The work left; a result in the channel still has to be received and written. */
  function Measure(s: State): nat {
    Sum(s.workers, WorkerRank) + CoordinatorRank(s.coordinator) + ConsumerRank(s.consumer) + 2 * |s.resultCh|
    + if s.cancelled then 0 else 1
  }

  lemma WorkerDecreases(cfg: Config, s: State, i: nat, op: WorkerOp)
    requires CanWork(cfg, s, i, op) && !s.panicked && !DoWork(cfg, s, i, op).panicked
    ensures Measure(DoWork(cfg, s, i, op)) < Measure(s)
  {
    SumUpdate(s.workers, i, NextPhase(s, s.workers[i], op), WorkerRank);
  }

  lemma CoordinatorDecreases(cfg: Config, s: State, op: CoordinatorOp)
    requires CanCoordinate(s, op) && Coordination(s) && !s.panicked && !DoCoordinate(cfg, s, op).panicked
    ensures Measure(DoCoordinate(cfg, s, op)) < Measure(s)
  {
    hide Summary.Summarizes;
    CoordinatorEffect(cfg, s, op);
    if op.Spawn? {
      SumUpdate(s.workers, s.coordinator.next, Acquiring, WorkerRank);
    } else {
      assert CoordinatorRank(DoCoordinate(cfg, s, op).coordinator) < CoordinatorRank(s.coordinator);
    }
    hide DoCoordinate, CanCoordinate, Sum;
  }

  lemma ConsumerDecreases(cfg: Config, s: State, op: ConsumerOp)
    requires CanConsume(s, op)
    ensures Measure(DoConsume(cfg, s, op)) < Measure(s)
  {
    hide Sum, WorkerRank, CoordinatorRank;
  }

  lemma StepDecreases(cfg: Config, s: State, a: Action)
    requires Inv(cfg, s) && Enabled(cfg, s, a)
    ensures Measure(Apply(cfg, s, a)) < Measure(s)
  {
    StepKeeps(cfg, s, a);
    hide DoWork, DoCoordinate, DoConsume;
    match a
    case Work(i, op) => WorkerDecreases(cfg, s, i, op);
    case Coordinate(op) => CoordinatorDecreases(cfg, s, op);
    case Consume(op) => ConsumerDecreases(cfg, s, op);
    case Cancel =>
  }

  /** No run is longer than this, so every run ends. */
  lemma RunsAreBounded(cfg: Config, states: seq<State>, actions: seq<Action>)
    requires IsRun(cfg, states, actions)
    ensures |actions| <= 12 * |cfg.resolvers| + 18
  {
    RunMeasure(cfg, states, actions, |actions|);
    InitMeasure(Init(cfg).workers);
  }

  lemma {:induction false} RunMeasure(cfg: Config, states: seq<State>, actions: seq<Action>, k: nat)
    requires IsRun(cfg, states, actions) && k < |states|
    ensures Measure(states[k]) + k <= Measure(Init(cfg))
  {
    hide Inv, Apply, Measure, Enabled, Init;
    if k > 0 {
      RunMeasure(cfg, states, actions, k - 1);
      RunKeeps(cfg, states, actions, k - 1);
      StepDecreases(cfg, states[k - 1], actions[k - 1]);
    }
  }

  lemma {:induction false} InitMeasure(workers: seq<Phase>)
    requires forall i | 0 <= i < |workers| :: workers[i] == Unspawned
    ensures Sum(workers, WorkerRank) == 12 * |workers|
  {
    if workers != [] { InitMeasure(workers[1..]); }
  }

  // --- Progress ------------------------------------------------------------------------------

  /** Everything has ended: workers, coordinator and handler. */
  predicate Finished(s: State) {
    AllExited(s.workers) && s.coordinator.Stopped? && s.consumer.Left?
  }

  /** Some goroutine can move without the help of a cancellation. */
  ghost predicate CanMove(cfg: Config, s: State) {
    exists a: Action :: !a.Cancel? && Enabled(cfg, s, a)
  }

  /** A worker that is not waiting for a slot or for the mutex, nor for a full channel, can move. */
  lemma WorkerMoves(cfg: Config, s: State, i: nat)
    requires !s.panicked && i < |s.workers| == |cfg.resolvers|
    requires var p := s.workers[i];
             || p.Querying? || p.Appending? || p.Unlocking? || p.Finishing?
             || (p.Locking? && s.mutex == None)
             || (p.Releasing? && s.semaphore > 0)
             || (p.Sending? && (s.cancelled || |s.resultCh| < CHANNEL_CAPACITY))
             || (p.Acquiring? && s.semaphore < EffectiveConcurrency(cfg.concurrency))
    ensures CanMove(cfg, s)
  {
    var op := match s.workers[i]
      case Querying => Query(ResolverResult(cfg.resolvers[i], Error, []))
      case Appending(_, _) => Append
      case Unlocking(_) => Unlock
      case Finishing(_) => Done
      case Locking(_) => Lock
      case Releasing(_) => Release
      case Sending(_) => if s.cancelled then Drop else Send
      case _ => Acquire;
    assert Enabled(cfg, s, Work(i, op));
  }

  /** While the result channel has room or the context is cancelled, workers do not block each other
      for good: the semaphore and the mutex are held by workers that can move. */
  lemma WorkersProgress(cfg: Config, s: State, i: nat)
    requires Inv(cfg, s) && (s.cancelled || |s.resultCh| < CHANNEL_CAPACITY)
    requires i < |s.workers| && Live(s.workers[i])
    ensures CanMove(cfg, s)
  {
    CountZero(s.workers, Holds);
    assert s.workers[i] in s.workers;
    if s.mutex.Some? {
      WorkerMoves(cfg, s, s.mutex.value);
    } else if s.workers[i].Acquiring? && s.semaphore >= EffectiveConcurrency(cfg.concurrency) {
      var p :| p in s.workers && Holds(p);
      var j :| 0 <= j < |s.workers| && s.workers[j] == p;
      WorkerMoves(cfg, s, j);
    } else {
      WorkerMoves(cfg, s, i);
    }
  }

  lemma CoordinatorProgress(cfg: Config, s: State)
    requires Inv(cfg, s) && !s.coordinator.Stopped?
    requires s.coordinator.Waiting? ==> AllExited(s.workers)
    ensures CanMove(cfg, s)
  {
    hide Summary.Summarizes, Conservation, Attribution, Commitment, Transcript, Exclusion;
    CountZero(s.workers, Live);
    SummaryLaws.SummaryExists(s.results);
    var summary :| Summary.Summarizes(s.results, summary);
    var op := match s.coordinator
      case Spawning(next) => if next < |s.workers| then Spawn else EndSpawning
      case Waiting => Await
      case Checking => CheckContext
      case Summarising => Summarise(summary)
      case Persisting(_) => Persist(true)
      case Announcing(_) => Announce
      case ClosingDone => CloseDone
      case _ => CloseResults;
    assert Enabled(cfg, s, Coordinate(op));
  }

  lemma ConsumerProgress(cfg: Config, s: State)
    requires Inv(cfg, s) && !s.consumer.Left?
    requires s.consumer.Draining? ==> s.resultCh != [] || s.resultClosed
    ensures CanMove(cfg, s)
  {
    hide Conservation, Attribution, Coordination, Commitment, Transcript, Exclusion;
    var op := match s.consumer
      case Opening => WriteTotal(true)
      case Draining => if s.resultCh != [] then Receive else EndRange
      case Relaying(_) => WriteResult(true)
      case AwaitingDone => if s.doneCh != [] then ReceiveDone else MissDone
      case Concluding(_) => WriteDone(true)
      case Closing => CloseConnection
      case _ => Leave;
    assert Enabled(cfg, s, Consume(op));
  }

  /** Until everything has ended, some goroutine can move: there is no deadlock, whether the handler
      drains the channel or has left and the context is cancelled. */
  lemma NoDeadlock(cfg: Config, states: seq<State>, actions: seq<Action>, k: nat)
    requires IsRun(cfg, states, actions) && k < |states| && !Finished(states[k])
    ensures CanMove(cfg, states[k])
  {
    RunKeeps(cfg, states, actions, k);
    var s := states[k];
    if !s.consumer.Left? && !(s.consumer.Draining? && s.resultCh == [] && !s.resultClosed) {
      ConsumerProgress(cfg, s);
    } else if i :| 0 <= i < |s.workers| && Live(s.workers[i]) {
      WorkersProgress(cfg, s, i);
    } else {
      CoordinatorProgress(cfg, s);
    }
  }

  // --- Delivery ------------------------------------------------------------------------------

  /** A step that neither cancels the context nor fails to write. */
  predicate Healthy(a: Action) {
    && !a.Cancel?
    && (a.Consume? && a.use.WriteTotal? ==> a.use.ok)
    && (a.Consume? && a.use.WriteResult? ==> a.use.ok)
    && (a.Consume? && a.use.WriteDone? ==> a.use.ok)
  }

  predicate Past(c: Coordinator) { c.ClosingDone? || c.ClosingResults? || c.Stopped? }

  predicate Over(c: Consumer) { c.Closing? || c.Leaving? || c.Left? }

  /** Without cancellation and failed writes the summary is under way, and the handler ends only
      after writing it. */
  predicate OnTrack(cfg: Config, s: State) {
    && (s.cancelled ==> s.consumer.Left?)
    && (Over(s.consumer) ==> Concluded(cfg, s) && s.coordinator.Stopped?)
    && (Past(s.coordinator) && !Over(s.consumer) && !s.consumer.Concluding? ==> s.doneCh != [])
  }

  lemma StaysOnTrack(cfg: Config, s: State, a: Action)
    requires Inv(cfg, s) && OnTrack(cfg, s) && Enabled(cfg, s, a) && Healthy(a)
    ensures OnTrack(cfg, Apply(cfg, s, a))
  {
    match a
    case Work(i, op) => WorkerOnTrack(cfg, s, i, op);
    case Coordinate(op) => CoordinatorOnTrack(cfg, s, op);
    case Consume(op) => ConsumerOnTrack(cfg, s, op);
    case Cancel =>
  }

  lemma WorkerOnTrack(cfg: Config, s: State, i: nat, op: WorkerOp)
    requires Coordination(s) && Closure(s) && OnTrack(cfg, s) && CanWork(cfg, s, i, op)
    ensures OnTrack(cfg, DoWork(cfg, s, i, op))
  {
    assert !s.workers[i].Exited?;
  }

  lemma CoordinatorOnTrack(cfg: Config, s: State, op: CoordinatorOp)
    requires Closure(s) && OnTrack(cfg, s) && CanCoordinate(s, op)
    ensures OnTrack(cfg, DoCoordinate(cfg, s, op))
  {
  }

  lemma ConsumerOnTrack(cfg: Config, s: State, op: ConsumerOp)
    requires Closure(s) && Transcript(cfg, s) && OnTrack(cfg, s) && CanConsume(s, op) && Healthy(Consume(op))
    ensures OnTrack(cfg, DoConsume(cfg, s, op))
  {
  }

  /** If nobody cancels and every write succeeds, a run that has ended has delivered the total, one
      result per resolver, and the summary; and if storing succeeds, the check is stored exactly when that
      was asked for. */
  lemma Delivery(cfg: Config, states: seq<State>, actions: seq<Action>)
    requires IsRun(cfg, states, actions) && Finished(states[|actions|])
    requires forall k | 0 <= k < |actions| :: Healthy(actions[k])
    ensures exists summary ::
              && DoneWith(cfg, states[|actions|], summary)
              && ((forall a | a in actions && StreamSaving.IsPersist(a) :: a.duty.stored) ==>
                    states[|actions|].saved == if cfg.save then [Check(states[|actions|].results, summary)] else [])
  {
    RunOnTrack(cfg, states, actions, |actions|);
    RunKeeps(cfg, states, actions, |actions|);
    var s := states[|actions|];
    var summary := ConcludedIsDone(cfg, s);
    assert DoneFrame(summary) in s.frames by {
      assert s.frames[|s.frames| - 1] == DoneFrame(summary);
    }
    StreamSaving.SavedAsAsked(cfg, states, actions, |actions|);
    assert StreamSaving.Announced(s, summary);
    hide DoneWith, IsRun, Inv, OnTrack;
  }

  lemma InitOnTrack(cfg: Config)
    ensures OnTrack(cfg, Init(cfg))
  {
  }

  lemma {:induction false} RunOnTrack(cfg: Config, states: seq<State>, actions: seq<Action>, k: nat)
    requires IsRun(cfg, states, actions) && k < |states|
    requires forall j | 0 <= j < |actions| :: Healthy(actions[j])
    ensures OnTrack(cfg, states[k])
  {
    hide Inv, Apply, OnTrack, Enabled, Init, Healthy;
    if k == 0 {
      InitOnTrack(cfg);
    } else {
      RunOnTrack(cfg, states, actions, k - 1);
      RunKeeps(cfg, states, actions, k - 1);
      StaysOnTrack(cfg, states[k - 1], actions[k - 1]);
    }
  }

  // --- Agreement with the blocking check -----------------------------------------------------

  /** Every query result obtained so far is the reply of its resolver in `replies`. */
  ghost predicate AnswersAs(s: State, replies: seq<ResolverResult>) {
    && |s.workers| == |replies|
    && forall i | 0 <= i < |replies| && Carried(s.workers[i]).Some? :: Carried(s.workers[i]).value == replies[i]
  }

  lemma PublishedRearrangesReplies(
    cfg: Config, states: seq<State>, actions: seq<Action>, k: nat, streamed: Summary.CheckSummary, replies: seq<ResolverResult>)
    requires IsRun(cfg, states, actions) && k < |states| && Published(states[k], streamed)
    requires AnswersAs(states[k], replies)
    ensures multiset(states[k].results) == multiset(replies)
    ensures Summary.Summarizes(states[k].results, streamed)
  {
    hide Summary.Summarizes, Gather;
    var s := states[k];
    RunKeeps(cfg, states, actions, k);
    BagsAgree(s);
    forall i | 0 <= i < |replies| ensures Outcomes(s.workers)[i] == replies[i] {
      assert Carried(s.workers[i]).Some?;
    }
    assert Outcomes(s.workers) == replies;
  }

  /** If every resolver answers a streaming and a blocking check alike, the summary that the stream
      publishes and the summary of the check differ at most in the estimate, and not even there unless
      an answer set that ties for the majority outlasts the others. */
  lemma StreamMatchesCheck(
    cfg: Config, states: seq<State>, actions: seq<Action>, k: nat, streamed: Summary.CheckSummary,
    fanOut: FanOut.Config, fanOutStates: seq<FanOut.State>, fanOutActions: seq<FanOut.Action>, j: nat, checked: Summary.CheckSummary)
    requires IsRun(cfg, states, actions) && k < |states| && Published(states[k], streamed)
    requires FanOut.IsRun(fanOut, fanOutStates, fanOutActions) && j < |fanOutStates| && fanOutStates[j].coordinator.Returned?
    requires Summary.Summarizes(FanOut.Replies(fanOutStates[j].slots), checked)
    requires AnswersAs(states[k], fanOut.replies)
    ensures streamed == checked.(eta := streamed.eta)
    ensures SummaryLaws.TiesAreHarmless(fanOut.replies) ==> streamed == checked
  {
    hide Summary.Summarizes, IsRun, FanOut.IsRun, Published, AnswersAs;
    PublishedRearrangesReplies(cfg, states, actions, k, streamed, fanOut.replies);
    FanOut.ReturnsInListOrder(fanOut, fanOutStates, fanOutActions, j);
    SummaryLaws.SummariesAgree(fanOut.replies, states[k].results, checked, streamed);
  }
}
