/** How a message can be lost to its consumer: exactly which steps leave it with nobody to
    handle it, neither applied nor dead-lettered (internal/platform/events/consumer.go). */
module PipelineStranding {
  import opened Results
  import opened MessageIds
  import opened Pipeline
  import opened PipelineSafety
  import opened PipelineTheorems
  import opened PipelineScenarios

  /** Worker w has a delivery of message i. */
  predicate Busy(v: View, w: nat, i: nat) {
    !WorkerOf(v, w).Free? && WorkerOf(v, w).job.copy == i
  }

  /** Message i still waits for its effect: unsettled, of interest, neither applied nor
      dead-lettered. */
  predicate Undone(c: Config, s: State, i: nat) {
    && i < |s.stream| && Filtered(c, s.stream[i].id)
    && ProgressOf(s.view, i).fate == Outstanding
    && s.stream[i].body.created
    && !WasApplied(s.view, s.stream[i].id)
    && !Has(s.stream, Dead(s.stream[i].id))
  }

  /** The broker will not deliver message i again: its deliveries are used up, or it is older
      than the stream keeps messages. */
  predicate Exhausted(c: Config, s: State, i: nat)
    requires i < |s.stream|
  {
    ProgressOf(s.view, i).deliveries >= c.maxDeliver || s.now > s.stream[i].storedAt + c.maxAge
  }

  /** A message nobody will see again. */
  ghost predicate Stranded(c: Config, s: State, i: nat) {
    Undone(c, s, i) && Exhausted(c, s, i) && forall w :: !Busy(s.view, w, i)
  }

  /** Worker w is the last to have message i in hand. */
  ghost predicate LastHope(c: Config, s: State, w: nat, i: nat) {
    && Undone(c, s, i) && Exhausted(c, s, i)
    && Busy(s.view, w, i) && forall u :: u != w ==> !Busy(s.view, u, i)
  }

  /** The steps by which a worker lets go of a message it has not handled: its death, a dead
      letter that does not land, and a nak. */
  predicate LetsGo(c: Config, at: Worker, step: WorkerStep) {
    match step
    case Die => true
    case DeadLetter(answer) =>
      at.Failed? && (at.permanent || at.job.attempt >= c.maxDeliver) && answer in {Refused, Impossible}
    case Nak => at.Failed? && !at.permanent && at.job.attempt < c.maxDeliver
    case _ => false
  }

  /** The last instant at which an idle message could have been delivered. */
  ghost predicate AgesOut(c: Config, s: State, i: nat) {
    && Undone(c, s, i) && !Exhausted(c, s, i) && s.now == s.stream[i].storedAt + c.maxAge
    && forall w :: !Busy(s.view, w, i)
  }

  // ---------- exactly what strands a message ----------

  /** A message is stranded by exactly two kinds of step: the worker that is the last to have
      it lets go of it, or it ages out with nobody at it. In particular a dead letter that
      does not land on the last attempt leaves nothing for redelivery. */
  lemma WhatStrands(c: Config, s: State, a: Action, i: nat)
    requires Inv(c, s) && i < |s.stream|
    ensures !Stranded(c, s, i) && Stranded(c, Next(c, s, a), i) <==>
              || (a.WorkerDoes? && LastHope(c, s, a.w, i) && LetsGo(c, WorkerOf(s.view, a.w), a.workerStep))
              || (a == Tick && AgesOut(c, s, i))
  {
    if a.WorkerDoes? {
      if Busy(s.view, a.w, i) {
        OwnerStrands(c, s, a.w, a.workerStep, i);
      } else {
        BystanderDoesNotStrand(c, s, a.w, a.workerStep, i);
      }
    } else {
      OutsidersOnlyAge(c, s, a, i);
    }
  }

  lemma OutsidersOnlyAge(c: Config, s: State, a: Action, i: nat)
    requires Inv(c, s) && i < |s.stream| && !a.WorkerDoes?
    ensures !Stranded(c, s, i) && Stranded(c, Next(c, s, a), i) <==> a == Tick && AgesOut(c, s, i)
  {
    if a == Tick {
      TimeStrands(c, s, i);
    } else {
      OutsidersDoNotStrand(c, s, a, i);
    }
  }

  lemma TimeStrands(c: Config, s: State, i: nat)
    requires i < |s.stream|
    ensures !Stranded(c, s, i) && Stranded(c, Next(c, s, Tick), i) <==> AgesOut(c, s, i)
  {
    var s' := Next(c, s, Tick);
    assert s'.view == s.view && s'.stream == s.stream && s'.now == s.now + 1;
    assert Undone(c, s', i) == Undone(c, s, i);
  }

  lemma OutsidersDoNotStrand(c: Config, s: State, a: Action, i: nat)
    requires Inv(c, s) && i < |s.stream| && !a.WorkerDoes? && a != Tick
    ensures Stranded(c, Next(c, s, a), i) ==> Stranded(c, s, i)
  {
    var s' := Next(c, s, a);
    StepKeepsInv(c, s, a);
    HasGrows(s.stream, s'.stream);
    OutsidersLeaveView(c, s, a);
    assert WasApplied(s'.view, s.stream[i].id) == WasApplied(s.view, s.stream[i].id);
    assert forall w :: Busy(s'.view, w, i) == Busy(s.view, w, i);
  }

  lemma OutsidersLeaveView(c: Config, s: State, a: Action)
    requires !a.WorkerDoes?
    ensures var s' := Next(c, s, a);
            && s'.view.(processed := s.view.processed) == s.view
            && s.now <= s'.now && (a != Tick ==> s'.now == s.now)
  {
  }

  lemma BystanderDoesNotStrand(c: Config, s: State, w: nat, step: WorkerStep, i: nat)
    requires Inv(c, s) && i < |s.stream| && !Busy(s.view, w, i)
    ensures Stranded(c, Next(c, s, WorkerDoes(w, step)), i) ==> Stranded(c, s, i)
  {
    var s' := Next(c, s, WorkerDoes(w, step));
    if Stranded(c, s', i) {
      assert !Busy(s'.view, w, i);
      OthersAsBefore(c, s, w, step, i);
      StillUndone(c, s, w, step, i);
    }
  }

  lemma StillUndone(c: Config, s: State, w: nat, step: WorkerStep, i: nat)
    requires Inv(c, s) && i < |s.stream|
    requires ProgressOf(Next(c, s, WorkerDoes(w, step)).view, i) == ProgressOf(s.view, i)
    ensures var s' := Next(c, s, WorkerDoes(w, step));
            && s.stream <= s'.stream && s'.now == s.now
            && (Undone(c, s', i) ==> Undone(c, s, i))
  {
    var s' := Next(c, s, WorkerDoes(w, step));
    StepKeepsInv(c, s, WorkerDoes(w, step));
    HasGrows(s.stream, s'.stream);
    AppliedGrows(c, s.view, s.stream, s.now, w, step);
  }

  lemma OthersAsBefore(c: Config, s: State, w: nat, step: WorkerStep, i: nat)
    requires !Busy(s.view, w, i)
    requires !Busy(WorkerNext(c, s.view, s.stream, s.now, w, step).0, w, i)
    ensures var v' := WorkerNext(c, s.view, s.stream, s.now, w, step).0;
            && ProgressOf(v', i) == ProgressOf(s.view, i)
            && forall u :: Busy(s.view, u, i) ==> Busy(v', u, i)
  {
  }

  lemma OwnerStrands(c: Config, s: State, w: nat, step: WorkerStep, i: nat)
    requires Inv(c, s) && Busy(s.view, w, i)
    ensures Stranded(c, Next(c, s, WorkerDoes(w, step)), i) <==>
              LastHope(c, s, w, i) && LetsGo(c, WorkerOf(s.view, w), step)
  {
    if LetsGo(c, WorkerOf(s.view, w), step) {
      LettingGo(c, s, w, step, i);
    } else if Stranded(c, Next(c, s, WorkerDoes(w, step)), i) {
      HoldingOn(c, s, w, step, i);
    }
  }

  /** Letting go changes nothing but the worker. */
  lemma LettingGo(c: Config, s: State, w: nat, step: WorkerStep, i: nat)
    requires Inv(c, s) && Busy(s.view, w, i) && LetsGo(c, WorkerOf(s.view, w), step)
    ensures Stranded(c, Next(c, s, WorkerDoes(w, step)), i) <==> LastHope(c, s, w, i)
  {
    var s' := Next(c, s, WorkerDoes(w, step));
    WorkerOkOf(c, s.outbox.born, s.stream, s.now, s.view, w);
    assert s' == s.(view := SetWorker(s.view, w, Free));
    assert forall id :: WasApplied(s'.view, id) == WasApplied(s.view, id);
    assert forall u :: Busy(s'.view, u, i) <==> u != w && Busy(s.view, u, i);
  }

  lemma HoldingOn(c: Config, s: State, w: nat, step: WorkerStep, i: nat)
    requires Inv(c, s) && Busy(s.view, w, i) && !LetsGo(c, WorkerOf(s.view, w), step)
    ensures !Stranded(c, Next(c, s, WorkerDoes(w, step)), i)
  {
    var s' := Next(c, s, WorkerDoes(w, step));
    WorkerOkOf(c, s.outbox.born, s.stream, s.now, s.view, w);
    AppliedGrows(c, s.view, s.stream, s.now, w, step);
    if step.DeadLetter? {
      LandedDeadLetter(c, s, w, step.answer);
    } else {
      StillHeld(c, s, w, step);
    }
    assert Busy(s'.view, w, i) || !Undone(c, s', i);
  }

  lemma LandedDeadLetter(c: Config, s: State, w: nat, answer: Answer)
    requires !WorkerOf(s.view, w).Free? && !LetsGo(c, WorkerOf(s.view, w), DeadLetter(answer))
    ensures var s', at := Next(c, s, WorkerDoes(w, DeadLetter(answer))), WorkerOf(s.view, w);
            s' == s || (s.stream <= s'.stream && Has(s'.stream, Dead(at.job.id)))
  {
    var at := WorkerOf(s.view, w);
    StoreIsStored(c, s.stream, Dead(at.job.id), at.job.body, s.now);
  }

  /** Any other step leaves the worker at its job, or it is done with it. */
  lemma StillHeld(c: Config, s: State, w: nat, step: WorkerStep)
    requires var at := WorkerOf(s.view, w);
             !at.Free? && !LetsGo(c, at, step) && !step.DeadLetter?
    ensures var s', at, at' := Next(c, s, WorkerDoes(w, step)), WorkerOf(s.view, w),
                               WorkerOf(Next(c, s, WorkerDoes(w, step)).view, w);
            && s'.stream == s.stream
            && ((!at'.Free? && at'.job == at.job) || at.Handled? || at.Copied?)
  {
  }

  // ---------- a stranded message stays alone ----------

  /** What no later step changes. */
  ghost predicate Alone(c: Config, s: State, i: nat) {
    && i < |s.stream| && Exhausted(c, s, i)
    && ProgressOf(s.view, i).fate == Outstanding && forall w :: !Busy(s.view, w, i)
  }

  lemma StepKeepsAlone(c: Config, s: State, a: Action, i: nat)
    requires Inv(c, s) && Alone(c, s, i)
    ensures Alone(c, Next(c, s, a), i)
  {
    StepKeepsInv(c, s, a);
    if a.WorkerDoes? {
      WorkerStepLeavesAlone(c, s, a.w, a.workerStep, i);
    } else {
      OtherStepLeavesAlone(c, s, a, i);
    }
  }

  lemma WorkerStepLeavesAlone(c: Config, s: State, w: nat, step: WorkerStep, i: nat)
    requires i < |s.stream| && Exhausted(c, s, i) && forall u :: !Busy(s.view, u, i)
    ensures var v' := Next(c, s, WorkerDoes(w, step)).view;
            ProgressOf(v', i) == ProgressOf(s.view, i) && forall u :: !Busy(v', u, i)
  {
    var v' := Next(c, s, WorkerDoes(w, step)).view;
    assert !Busy(s.view, w, i);
    assert !Busy(v', w, i);
    forall u | u != w ensures !Busy(v', u, i) {
      WorkersMoveAlone(c, s.view, s.stream, s.now, w, step, u);
      assert !Busy(s.view, u, i);
    }
  }

  lemma OtherStepLeavesAlone(c: Config, s: State, a: Action, i: nat)
    requires !a.WorkerDoes? && forall u :: !Busy(s.view, u, i)
    ensures var s' := Next(c, s, a);
            && ProgressOf(s'.view, i) == ProgressOf(s.view, i) && s'.now >= s.now && forall u :: !Busy(s'.view, u, i)
  {
    var s' := Next(c, s, a);
    OutsidersLeaveView(c, s, a);
    assert forall u :: Busy(s'.view, u, i) == Busy(s.view, u, i);
  }

  /** Nobody ever handles a stranded message again: in no run from there on does a worker get
      it or the broker see it settled. */
  lemma {:induction false} StrandedForGood(c: Config, s: State, run: seq<Action>, i: nat)
    requires Inv(c, s) && Alone(c, s, i)
    ensures Alone(c, Exec(c, s, run), i)
    decreases run
  {
    if run != [] {
      StepKeepsInv(c, s, run[0]);
      StepKeepsAlone(c, s, run[0], i);
      StrandedForGood(c, Next(c, s, run[0]), run[1..], i);
    }
  }

  // ---------- both ways there, from an empty system ----------

  lemma SampleIsUndone(c: Config, now: int, n: nat)
    ensures Undone(c, Tried(now, n), 0) && forall w :: !Busy(Tried(now, n).view, w, 0)
  {
    assert EffectOf(Sample) == Apply("t");
  }

  /** Under every configuration: the last attempt fails, the broker refuses the dead letter,
      and the message is stranded. */
  lemma RefusedDeadLetterStrands(c: Config) returns (s: State)
    requires c.batch > 0 && c.maxDeliver > 0 && c.maxAge >= 0
    ensures Reaches(c, Start, s) && LastHope(c, s, 0, 0) && WorkerOf(s.view, 0).Failed?
    ensures Stranded(c, Next(c, s, WorkerDoes(0, DeadLetter(Refused))), 0)
  {
    FailsRepeatedly(c, c.maxDeliver - 1);
    s := FailsForNow(c, c.maxDeliver - 1);
    SampleIsUndone(c, 0, c.maxDeliver);
    assert Next(c, s, WorkerDoes(0, DeadLetter(Refused))) == Tried(0, c.maxDeliver);
    assert forall id :: !WasApplied(s.view, id);
    assert forall u :: u != 0 ==> !Busy(s.view, u, 0);
  }

  /** Under every configuration: a message that was never delivered ages out. */
  lemma AgedOutIsStranded(c: Config) returns (s: State)
    requires c.batch > 0 && c.maxDeliver > 0 && c.maxAge >= 0
    ensures Reaches(c, Start, s) && AgesOut(c, s, 0) && Stranded(c, Next(c, s, Tick), 0)
    ensures ProgressOf(s.view, 0).deliveries == 0
  {
    OnlyRowStored(c);
    Waits(c, Start, Tried(0, 0), c.maxAge);
    s := Tried(c.maxAge, 0);
    SampleIsUndone(c, c.maxAge, 0);
    SampleIsUndone(c, c.maxAge + 1, 0);
    assert Next(c, s, Tick) == Tried(c.maxAge + 1, 0);
  }
}
