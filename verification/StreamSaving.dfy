/** What the streaming check stores, and when. */
module StreamSaving {
  import opened Collections
  import opened Dns
  import opened StreamProtocol
  import opened StreamInvariant
  import Summary

  /** An attempt to store the check. */
  predicate IsPersist(a: Action) { a.Coordinate? && a.duty.Persist? }

  predicate IsStore(a: Action) { IsPersist(a) && a.duty.stored }

  /** The client has been told the summary, or is about to be: it is on the done channel, in the
      handler's hands, or in a done frame. */
  predicate Announced(s: State, summary: Summary.CheckSummary) {
    summary in s.doneCh || s.consumer == Concluding(summary) || DoneFrame(summary) in s.frames
  }

  predicate Told(s: State, summary: Summary.CheckSummary) {
    s.coordinator == Announcing(summary) || Announced(s, summary)
  }

  predicate Early(c: Coordinator) { c.Spawning? || c.Waiting? || c.Checking? || c.Summarising? || c.Persisting? }

  /** After `attempts` attempts to store, `stores` of them successful. */
  ghost predicate Saving(cfg: Config, s: State, attempts: nat, stores: nat) {
    && stores <= attempts <= 1 && |s.saved| == stores
    && (attempts > 0 || s.coordinator.Persisting? ==> cfg.save)
    && (Early(s.coordinator) ==> attempts == 0 && forall u :: !Told(s, u))
    && (forall u | Told(s, u) :: (cfg.save ==> attempts == 1) && forall check | check in s.saved :: check.summary == u)
  }

  /** A step that stores nothing and tells no more keeps the books. */
  lemma Quiet(cfg: Config, s: State, t: State, attempts: nat, stores: nat)
    requires Saving(cfg, s, attempts, stores) && t.saved == s.saved
    requires Early(t.coordinator) ==> Early(s.coordinator)
    requires t.coordinator.Persisting? ==> s.coordinator.Persisting? || cfg.save
    requires forall u | Told(t, u) :: Told(s, u)
    ensures Saving(cfg, t, attempts, stores)
  {
    hide Told;
  }

  lemma SavingKept(cfg: Config, s: State, a: Action, attempts: nat, stores: nat)
    requires Enabled(cfg, s, a) && Saving(cfg, s, attempts, stores)
    ensures Saving(cfg, Apply(cfg, s, a), attempts + (if IsPersist(a) then 1 else 0), stores + if IsStore(a) then 1 else 0)
  {
    match a
    case Work(i, op) =>
      WorkerIsQuiet(cfg, s, i, op);
      hide Saving, Told;
      Quiet(cfg, s, Apply(cfg, s, a), attempts, stores);
    case Coordinate(op) =>
      if op.Persist? {
        AttemptKeepsSaving(cfg, s, op, attempts, stores);
      } else if op.Summarise? {
        SummaryKeepsSaving(cfg, s, op, attempts, stores);
      } else {
        CoordinatorIsQuiet(cfg, s, op);
        hide Saving, Told;
        Quiet(cfg, s, Apply(cfg, s, a), attempts, stores);
      }
    case Consume(op) =>
      ConsumerIsQuiet(cfg, s, op);
      hide Saving, Told;
      Quiet(cfg, s, Apply(cfg, s, a), attempts, stores);
    case Cancel =>
      Quiet(cfg, s, Apply(cfg, s, a), attempts, stores);
  }

  lemma WorkerIsQuiet(cfg: Config, s: State, i: nat, op: WorkerOp)
    requires CanWork(cfg, s, i, op)
    ensures var t := DoWork(cfg, s, i, op);
            t.saved == s.saved && t.coordinator == s.coordinator && forall u | Told(t, u) :: Told(s, u)
  {
    hide DoWork, CanWork;
    WorkerLeaves(cfg, s, i, op);
  }

  lemma WorkerLeaves(cfg: Config, s: State, i: nat, op: WorkerOp)
    requires CanWork(cfg, s, i, op)
    ensures var t := DoWork(cfg, s, i, op);
            && t.saved == s.saved && t.coordinator == s.coordinator && t.doneCh == s.doneCh
            && t.consumer == s.consumer && t.frames == s.frames
  {
    hide NextPhase;
  }

  lemma CoordinatorIsQuiet(cfg: Config, s: State, op: CoordinatorOp)
    requires CanCoordinate(s, op) && !op.Summarise? && !op.Persist?
    ensures var t := DoCoordinate(cfg, s, op);
            && t.saved == s.saved && (Early(t.coordinator) ==> Early(s.coordinator)) && !t.coordinator.Persisting?
            && forall u | Told(t, u) :: Told(s, u)
  {
    hide Summary.Summarizes;
  }

  lemma ConsumerIsQuiet(cfg: Config, s: State, op: ConsumerOp)
    requires CanConsume(s, op)
    ensures var t := DoConsume(cfg, s, op);
            t.saved == s.saved && t.coordinator == s.coordinator && forall u | Told(t, u) :: Told(s, u)
  {
    var t := DoConsume(cfg, s, op);
    forall u | Told(t, u) ensures Told(s, u) {
      ConsumerTells(cfg, s, op, u);
    }
  }

  lemma ConsumerTells(cfg: Config, s: State, op: ConsumerOp, u: Summary.CheckSummary)
    requires CanConsume(s, op) && Told(DoConsume(cfg, s, op), u)
    ensures Told(s, u)
  {
  }

  lemma SummaryKeepsSaving(cfg: Config, s: State, op: CoordinatorOp, attempts: nat, stores: nat)
    requires CanCoordinate(s, op) && op.Summarise? && Saving(cfg, s, attempts, stores)
    ensures Saving(cfg, DoCoordinate(cfg, s, op), attempts, stores)
  {
    hide Summary.Summarizes;
    NothingSaved(cfg, s, attempts, stores);
    var t := DoCoordinate(cfg, s, op);
    forall u | Told(t, u) ensures t.coordinator == Announcing(u) {
      assert !Told(s, u);
    }
  }

  lemma AttemptKeepsSaving(cfg: Config, s: State, op: CoordinatorOp, attempts: nat, stores: nat)
    requires CanCoordinate(s, op) && op.Persist? && Saving(cfg, s, attempts, stores)
    ensures Saving(cfg, DoCoordinate(cfg, s, op), attempts + 1, stores + if op.stored then 1 else 0)
  {
    NothingSaved(cfg, s, attempts, stores);
    var t := DoCoordinate(cfg, s, op);
    forall u | Told(t, u) ensures t.coordinator == Announcing(u) {
      assert !Told(s, u);
    }
  }

  lemma NothingSaved(cfg: Config, s: State, attempts: nat, stores: nat)
    requires Saving(cfg, s, attempts, stores) && Early(s.coordinator)
    ensures attempts == stores == 0 && s.saved == []
  {
    hide Told;
  }

  lemma {:induction false} RunSaving(cfg: Config, states: seq<State>, actions: seq<Action>, k: nat)
    requires IsRun(cfg, states, actions) && k < |states|
    ensures Saving(cfg, states[k], Count(actions[..k], IsPersist), Count(actions[..k], IsStore))
  {
    hide Saving, Apply, Enabled, Init;
    if k == 0 {
      assert Saving(cfg, Init(cfg), 0, 0) by { InitSaving(cfg); }
    } else {
      RunSaving(cfg, states, actions, k - 1);
      SavingKept(cfg, states[k - 1], actions[k - 1], Count(actions[..k - 1], IsPersist), Count(actions[..k - 1], IsStore));
      CountSnoc(actions, k - 1, IsPersist);
      CountSnoc(actions, k - 1, IsStore);
    }
  }

  lemma InitSaving(cfg: Config)
    ensures Saving(cfg, Init(cfg), 0, 0)
  {
  }

  /** Over every run: a check that is not to be saved is never stored; at most one check is stored. Where
      saving was asked for, the client is told a summary only after an attempt to store it, and if all
      attempts so far succeeded, exactly the check with that summary and all the recorded results is
      stored. */
  lemma SavedAsAsked(cfg: Config, states: seq<State>, actions: seq<Action>, k: nat)
    requires IsRun(cfg, states, actions) && k < |states|
    ensures !cfg.save ==> states[k].saved == []
    ensures |states[k].saved| <= 1
    ensures forall u | Announced(states[k], u) && cfg.save ::
              && (exists j :: 0 <= j < k && IsPersist(actions[j]))
              && ((forall j | 0 <= j < k && IsPersist(actions[j]) :: actions[j].duty.stored) ==>
                    states[k].saved == [Check(states[k].results, u)])
  {
    RunSaving(cfg, states, actions, k);
    RunKeeps(cfg, states, actions, k);
    assert Commitment(states[k]);
    hide IsRun, Inv, Counters, Exclusion, Conservation, Attribution, Coordination, Closure, Transcript, Complete;
    var past := actions[..k];
    CountZero(past, IsPersist);
    CountMonotone(past, IsStore, IsPersist);
    forall u | Announced(states[k], u) && cfg.save
      ensures exists j :: 0 <= j < k && IsPersist(actions[j])
      ensures (forall j | 0 <= j < k && IsPersist(actions[j]) :: actions[j].duty.stored) ==> states[k].saved == [Check(states[k].results, u)]
    {
      assert Told(states[k], u);
      var a :| a in past && IsPersist(a);
      var j :| 0 <= j < k && past[j] == a;
      assert IsPersist(actions[j]);
      if forall j | 0 <= j < k && IsPersist(actions[j]) :: actions[j].duty.stored {
        OneStored(states[k], u);
      }
    }
  }

  lemma OneStored(s: State, u: Summary.CheckSummary)
    requires |s.saved| == 1 && s.saved[0].summary == u && s.saved[0].results == s.results
    ensures s.saved == [Check(s.results, u)]
  {
  }
}
