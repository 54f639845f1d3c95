/** Pruning and at-most-once: when may processed_events forget an event?
    (internal/platform/outbox/prune.go and the retention floor of config.Validate.) */
module PipelineRetention {
  import opened Results
  import opened MessageIds
  import opened Pipeline
  import opened PipelineSafety
  import opened PipelineTheorems

  /** config.Validate: the floor it enforces between the two retentions. */
  predicate FloorAccepts(c: Config) {
    c.keepProcessed > 0 && c.keepProcessed > c.maxAge
  }

  /** Every stored copy of an applied event, and any handler still working on it, is gone
      before the event's dedup row may be pruned. */
  predicate Timely(c: Config, s: State) {
    forall j, k :: 0 <= j < |s.stream| && 0 <= k < |s.view.applied| && s.stream[j].id == s.view.applied[k].id ==>
      s.stream[j].storedAt + c.maxAge + c.ackWait <= s.view.applied[k].at + c.keepProcessed
  }

  /** An applied event is remembered until its retention is over. */
  predicate RememberedInTime(c: Config, s: State) {
    forall k :: 0 <= k < |s.view.applied| ==>
      || (s.view.applied[k].id in s.view.processed
          && s.view.processed[s.view.applied[k].id] == s.view.applied[k].at)
      || s.now > s.view.applied[k].at + c.keepProcessed
  }

  /** No worker that has claimed its event is about to apply it again. */
  predicate ClaimsAreNew(s: State) {
    forall w :: w in s.view.workers && Holds(s.view.workers[w]) ==> !WasApplied(s.view, s.view.workers[w].job.id)
  }

  predicate AtMostOnce(c: Config, s: State) {
    Distinct(s.view.applied) && RememberedInTime(c, s) && ClaimsAreNew(s)
  }

  lemma AppliedExtends(c: Config, s: State, a: Action)
    ensures s.view.applied <= Next(c, s, a).view.applied
  {
    if a.WorkerDoes? {
      AppliedGrows(c, s.view, s.stream, s.now, a.w, a.workerStep);
    }
  }

  lemma StepTakesTimeliness(c: Config, s: State, a: Action)
    requires Inv(c, s) && Timely(c, Next(c, s, a))
    ensures Timely(c, s)
  {
    var s' := Next(c, s, a);
    StepKeepsInv(c, s, a);
    AppliedExtends(c, s, a);
    forall j, k | 0 <= j < |s.stream| && 0 <= k < |s.view.applied| && s.stream[j].id == s.view.applied[k].id
      ensures s.stream[j].storedAt + c.maxAge + c.ackWait <= s.view.applied[k].at + c.keepProcessed
    {
      assert s'.stream[j] == s.stream[j] && s'.view.applied[k] == s.view.applied[k];
    }
  }

  lemma OtherStepsKeepAtMostOnce(c: Config, s: State, a: Action)
    requires Inv(c, s) && AtMostOnce(c, s) && !a.WorkerDoes?
    ensures AtMostOnce(c, Next(c, s, a))
  {
    var s' := Next(c, s, a);
    OtherStepsForget(c, s, a);
    assert forall id :: WasApplied(s'.view, id) == WasApplied(s.view, id);
  }

  /** Only pruning forgets, and only what is past its retention. */
  lemma OtherStepsForget(c: Config, s: State, a: Action)
    requires !a.WorkerDoes?
    ensures var s' := Next(c, s, a);
            && s'.view.applied == s.view.applied && s'.view.workers == s.view.workers && s'.now >= s.now
            && forall id :: id in s.view.processed ==>
                 || (id in s'.view.processed && s'.view.processed[id] == s.view.processed[id])
                 || s.view.processed[id] < s'.now - c.keepProcessed
  {
  }

  /** The dedup check in a claim: an event applied before is still remembered when a late
      redelivery of it gets this far. */
  lemma ClaimIsNew(c: Config, s: State, w: nat)
    requires Inv(c, s) && AtMostOnce(c, s) && Timely(c, s)
    requires WorkerOf(s.view, w).Begun? && s.now <= WorkerOf(s.view, w).job.deadline
    requires WorkerOf(s.view, w).job.id !in s.view.processed
    ensures !WasApplied(s.view, WorkerOf(s.view, w).job.id)
  {
    WorkerOkOf(c, s.outbox.born, s.stream, s.now, s.view, w);
    var job := WorkerOf(s.view, w).job;
    assert s.stream[job.copy].id == job.id;
    forall k | 0 <= k < |s.view.applied| ensures s.view.applied[k].id != job.id {
    }
  }

  lemma CommitKeepsAtMostOnce(c: Config, s: State, w: nat, told: bool)
    requires Inv(c, s) && AtMostOnce(c, s)
    ensures AtMostOnce(c, Next(c, s, WorkerDoes(w, CommitEvent(told))))
  {
    var s' := Next(c, s, WorkerDoes(w, CommitEvent(told)));
    WorkerOkOf(c, s.outbox.born, s.stream, s.now, s.view, w);
    OnlyCommitsApply(c, s.view, s.stream, s.now, w, CommitEvent(told));
    var at := WorkerOf(s.view, w);
    if s' != s && at.Counted? {
      assert s'.view.applied == s.view.applied + [s'.view.applied[|s.view.applied|]];
      assert !WasApplied(s.view, at.job.id);
      RivalsStayNew(c, s, w, told);
    }
  }

  lemma RivalsStayNew(c: Config, s: State, w: nat, told: bool)
    requires Inv(c, s) && ClaimsAreNew(s) && WorkerOf(s.view, w).Counted?
    ensures ClaimsAreNew(Next(c, s, WorkerDoes(w, CommitEvent(told))))
  {
    var s' := Next(c, s, WorkerDoes(w, CommitEvent(told)));
    OnlyCommitsApply(c, s.view, s.stream, s.now, w, CommitEvent(told));
    if s' != s {
      forall u | u in s'.view.workers && Holds(s'.view.workers[u])
        ensures !WasApplied(s'.view, s'.view.workers[u].job.id)
      {
        assert u != w && s'.view.workers[u] == s.view.workers[u];
        assert s'.view.applied[..|s.view.applied|] == s.view.applied;
      }
    }
  }

  lemma WorkerKeepsAtMostOnce(c: Config, s: State, w: nat, step: WorkerStep)
    requires Inv(c, s) && AtMostOnce(c, s) && Timely(c, s)
    ensures AtMostOnce(c, Next(c, s, WorkerDoes(w, step)))
  {
    var s' := Next(c, s, WorkerDoes(w, step));
    if step.CommitEvent? {
      CommitKeepsAtMostOnce(c, s, w, step.told);
    } else {
      OnlyCommitsApply(c, s.view, s.stream, s.now, w, step);
      assert s'.view.applied == s.view.applied && s'.view.processed == s.view.processed && s'.now == s.now;
      ClaimsStayNew(c, s, w, step);
    }
  }

  lemma ClaimsStayNew(c: Config, s: State, w: nat, step: WorkerStep)
    requires Inv(c, s) && AtMostOnce(c, s) && Timely(c, s) && !step.CommitEvent?
    requires Next(c, s, WorkerDoes(w, step)).view.applied == s.view.applied
    ensures ClaimsAreNew(Next(c, s, WorkerDoes(w, step)))
  {
    var s' := Next(c, s, WorkerDoes(w, step));
    assert forall id :: WasApplied(s'.view, id) == WasApplied(s.view, id);
    OwnClaimStaysNew(c, s, w, step);
    forall u | u in s'.view.workers && Holds(s'.view.workers[u])
      ensures !WasApplied(s'.view, s'.view.workers[u].job.id)
    {
      if u != w {
        WorkersMoveAlone(c, s.view, s.stream, s.now, w, step, u);
        assert WorkerOf(s'.view, u) == WorkerOf(s.view, u);
      }
    }
  }

  lemma OwnClaimStaysNew(c: Config, s: State, w: nat, step: WorkerStep)
    requires Inv(c, s) && AtMostOnce(c, s) && Timely(c, s) && !step.CommitEvent?
    ensures var at' := WorkerOf(Next(c, s, WorkerDoes(w, step)).view, w);
            Holds(at') ==> !WasApplied(s.view, at'.job.id)
  {
    OnlyClaimsHold(c, s, w, step);
    var at := WorkerOf(s.view, w);
    if at.Begun? && s.now <= at.job.deadline && at.job.id !in s.view.processed {
      ClaimIsNew(c, s, w);
    }
  }

  lemma OnlyClaimsHold(c: Config, s: State, w: nat, step: WorkerStep)
    requires !step.CommitEvent?
    ensures var at, at' := WorkerOf(s.view, w), WorkerOf(Next(c, s, WorkerDoes(w, step)).view, w);
            Holds(at') ==>
              || (Holds(at) && at'.job == at.job)
              || (at.Begun? && at'.job == at.job && s.now <= at.job.deadline && at.job.id !in s.view.processed)
  {
  }

  /** Pruning keeps at-most-once: if every copy of an applied message is out of reach before
      its dedup row is, no interleaving of prunes, republishes and redeliveries applies a
      message twice. */
  lemma PruningKeepsAtMostOnce(c: Config, run: seq<Action>)
    requires Timely(c, Exec(c, Start, run))
    ensures Distinct(Exec(c, Start, run).view.applied)
  {
    RunKeepsAtMostOnce(c, Start, run);
  }

  lemma {:induction false} RunKeepsAtMostOnce(c: Config, s: State, run: seq<Action>)
    requires Inv(c, s) && AtMostOnce(c, s)
    requires Timely(c, Exec(c, s, run))
    ensures AtMostOnce(c, Exec(c, s, run)) && Timely(c, s)
    decreases |run|
  {
    if run != [] {
      var n := |run| - 1;
      var front, last := run[..n], run[n];
      assert run == front + [last];
      ExecAppend(c, s, front, [last]);
      var t := Exec(c, s, front);
      assert Exec(c, t, [last]) == Exec(c, Next(c, t, last), []) == Next(c, t, last);
      EveryRunKeepsInv(c, s, front);
      StepTakesTimeliness(c, t, last);
      RunKeepsAtMostOnce(c, s, front);
      match last
      case WorkerDoes(w, step) => WorkerKeepsAtMostOnce(c, t, w, step);
      case _ => OtherStepsKeepAtMostOnce(c, t, last);
    }
  }

  // ---------- a retention that is long enough ----------

  /** No message is stored again once it has been applied. */
  predicate NoLateCopies(s: State) {
    forall j, k :: 0 <= j < |s.stream| && 0 <= k < |s.view.applied| && s.stream[j].id == s.view.applied[k].id ==>
      s.stream[j].storedAt <= s.view.applied[k].at
  }

  /** Without late copies, a dedup retention that covers the stream's age and one handler is
      enough. */
  lemma LongRetentionIsTimely(c: Config, s: State)
    requires c.keepProcessed >= c.maxAge + c.ackWait && NoLateCopies(s)
    ensures Timely(c, s)
  {
  }
}
