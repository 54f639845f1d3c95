/** What becomes of a committed event. From every reachable state: exactly when some
    continuation still applies it, and exactly when some continuation still dead-letters it.
    Both are about the event's own message; where dead letters come back, they are messages
    of their own. */
module PipelineRecovery {
  import opened Results
  import opened MessageIds
  import opened Sets
  import opened Pipeline
  import opened PipelineSafety
  import opened PipelineTheorems
  import opened PipelineScenarios

  /** The event's row is in the table and not marked published: pending, or replayable. */
  predicate Unsent(s: State, row: int) {
    row in s.outbox.rows && s.outbox.rows[row].publishedAt.None?
  }

  /** The broker may still deliver message i. */
  predicate Deliverable(c: Config, s: State, i: nat) {
    && i < |s.stream| && Filtered(c, s.stream[i].id) && s.now <= s.stream[i].storedAt + c.maxAge
    && ProgressOf(s.view, i).fate == Outstanding && ProgressOf(s.view, i).deliveries < c.maxDeliver
  }

  ghost predicate OnItsWay(c: Config, s: State, row: int) {
    exists i: nat :: Deliverable(c, s, i) && s.stream[i].id == Live(row)
  }

  /** A delivery of the event can still begin. */
  ghost predicate Coming(c: Config, s: State, row: int) {
    Unsent(s, row) || OnItsWay(c, s, row)
  }

  /** A worker that can still commit the message it has in hand. */
  predicate Applying(s: State, w: nat, id: Id) {
    var at := WorkerOf(s.view, w);
    && (at.Received? || at.Begun? || at.Claimed? || at.Counted?)
    && at.job.id == id && EffectOf(at.job.body).Apply? && s.now <= at.job.deadline
  }

  /** A worker that can still set the message it has in hand aside: it is, or may come to be,
      past its last attempt or failed for good. */
  predicate SettingAside(c: Config, s: State, w: nat, id: Id) {
    match WorkerOf(s.view, w)
    case Received(job) => job.id == id && (job.attempt >= c.maxDeliver || EffectOf(job.body) == Refuse)
    case Begun(job, _) => job.id == id && job.attempt >= c.maxDeliver
    case Claimed(job, _) => job.id == id && job.attempt >= c.maxDeliver
    case Counted(job, _, _) => job.id == id && job.attempt >= c.maxDeliver
    case Failed(job, permanent) => job.id == id && (permanent || job.attempt >= c.maxDeliver)
    case _ => false
  }

  ghost predicate MayBeApplied(c: Config, s: State, row: int)
    requires row in s.outbox.born
  {
    || WasApplied(s.view, Live(row))
    || (EffectOf(s.outbox.born[row]).Apply? && Coming(c, s, row))
    || exists w :: Applying(s, w, Live(row))
  }

  ghost predicate MayBeSetAside(c: Config, s: State, row: int) {
    || Has(s.stream, Dead(Live(row)))
    || Coming(c, s, row)
    || exists w :: SettingAside(c, s, w, Live(row))
  }

  // ---------- the two theorems ----------

  /** Some continuation applies the event if and only if it is applied, or its row is not
      marked published, or a copy can still be delivered (and the event is one that can be
      applied), or a worker has it in hand before its deadline. */
  lemma WhatCanBeApplied(c: Config, s: State, row: int)
    requires Inv(c, s) && Startable(c) && row in s.outbox.born
    ensures (exists t :: Reaches(c, s, t) && WasApplied(t.view, Live(row))) <==> MayBeApplied(c, s, row)
  {
    if MayBeApplied(c, s, row) {
      var t := CanApplyIt(c, s, row);
    }
    forall t | Reaches(c, s, t) && WasApplied(t.view, Live(row)) ensures MayBeApplied(c, s, row) {
      var run :| Exec(c, s, run) == t;
      NeverAppliedFrom(c, s, run, row);
    }
  }

  /** The same for its dead letter, where no deadline matters but the attempts do. */
  lemma WhatCanBeSetAside(c: Config, s: State, row: int)
    requires Inv(c, s) && Startable(c) && row in s.outbox.born
    ensures (exists t :: Reaches(c, s, t) && Has(t.stream, Dead(Live(row)))) <==> MayBeSetAside(c, s, row)
  {
    if MayBeSetAside(c, s, row) {
      var t := CanSetItAside(c, s, row);
    }
    forall t | Reaches(c, s, t) && Has(t.stream, Dead(Live(row))) ensures MayBeSetAside(c, s, row) {
      var run :| Exec(c, s, run) == t;
      NeverSetAsideFrom(c, s, run, row);
    }
  }

  // ---------- nothing brings it back ----------

  lemma {:induction false} NeverAppliedFrom(c: Config, s: State, run: seq<Action>, row: int)
    requires Inv(c, s) && row in s.outbox.born && WasApplied(Exec(c, s, run).view, Live(row))
    ensures MayBeApplied(c, s, row)
    decreases run
  {
    if run != [] {
      StepKeepsInv(c, s, run[0]);
      BornStays(c, s, run[0], row);
      NeverAppliedFrom(c, Next(c, s, run[0]), run[1..], row);
      StepNeverRevivesApplying(c, s, run[0], row);
    }
  }

  lemma {:induction false} NeverSetAsideFrom(c: Config, s: State, run: seq<Action>, row: int)
    requires Inv(c, s) && row in s.outbox.born && Has(Exec(c, s, run).stream, Dead(Live(row)))
    ensures MayBeSetAside(c, s, row)
    decreases run
  {
    if run != [] {
      StepKeepsInv(c, s, run[0]);
      BornStays(c, s, run[0], row);
      NeverSetAsideFrom(c, Next(c, s, run[0]), run[1..], row);
      StepNeverRevivesSettingAside(c, s, run[0], row);
    }
  }

  lemma BornStays(c: Config, s: State, a: Action, row: int)
    requires row in s.outbox.born
    ensures var o := Next(c, s, a).outbox; row in o.born && o.born[row] == s.outbox.born[row]
  {
  }

  lemma StepNeverRevivesApplying(c: Config, s: State, a: Action, row: int)
    requires Inv(c, s) && row in s.outbox.born && row in Next(c, s, a).outbox.born
    requires MayBeApplied(c, Next(c, s, a), row)
    ensures MayBeApplied(c, s, row)
  {
    var s' := Next(c, s, a);
    BornStays(c, s, a, row);
    if Coming(c, s', row) {
      StepNeverRevivesCopies(c, s, a, row);
    }
    if WasApplied(s'.view, Live(row)) && !WasApplied(s.view, Live(row)) {
      ApplierWasApplying(c, s, a, Live(row));
    }
    if w: nat :| Applying(s', w, Live(row)) {
      ApplyingBefore(c, s, a, w, row);
    }
  }

  lemma StepNeverRevivesSettingAside(c: Config, s: State, a: Action, row: int)
    requires Inv(c, s) && row in s.outbox.born
    requires MayBeSetAside(c, Next(c, s, a), row)
    ensures MayBeSetAside(c, s, row)
  {
    var s' := Next(c, s, a);
    if Coming(c, s', row) {
      StepNeverRevivesCopies(c, s, a, row);
    }
    if Has(s'.stream, Dead(Live(row))) && !Has(s.stream, Dead(Live(row))) {
      StorerWasSettingAside(c, s, a, Live(row));
    }
    if w: nat :| SettingAside(c, s', w, Live(row)) {
      SettingAsideBefore(c, s, a, w, row);
    }
  }

  /** No step makes a delivery of the event possible that was not possible before. */
  lemma StepNeverRevivesCopies(c: Config, s: State, a: Action, row: int)
    requires Inv(c, s) && row in s.outbox.born && Coming(c, Next(c, s, a), row)
    ensures Coming(c, s, row)
  {
    var s' := Next(c, s, a);
    if Unsent(s', row) {
      SentStaysSent(c, s, a, row);
    } else {
      var i: nat :| Deliverable(c, s', i) && s'.stream[i].id == Live(row);
      StepKeepsInv(c, s, a);
      ProgressOnlyEnds(c, s, a, i);
      if i >= |s.stream| {
        NewLiveCopyIsUnsent(c, s, a, i);
      } else {
        assert Deliverable(c, s, i) && s.stream[i].id == Live(row);
      }
    }
  }

  lemma SentStaysSent(c: Config, s: State, a: Action, row: int)
    requires row in s.outbox.born && Unsent(Next(c, s, a), row)
    ensures Unsent(s, row)
  {
  }

  /** The broker's record of a message can only move towards its end. */
  predicate MovesOn(p: Progress, p': Progress) {
    p.deliveries <= p'.deliveries && (p'.fate == Outstanding ==> p.fate == Outstanding)
  }

  lemma ProgressOnlyEnds(c: Config, s: State, a: Action, i: nat)
    ensures MovesOn(ProgressOf(s.view, i), ProgressOf(Next(c, s, a).view, i))
    ensures s.now <= Next(c, s, a).now
  {
    if a.WorkerDoes? {
      WorkerEndsProgress(c, s.view, s.stream, s.now, a.w, a.workerStep, i);
    }
  }

  lemma WorkerEndsProgress(c: Config, v: View, stream: seq<Copy>, now: int, w: nat, step: WorkerStep, i: nat)
    ensures MovesOn(ProgressOf(v, i), ProgressOf(WorkerNext(c, v, stream, now, w, step).0, i))
  {
    var v' := WorkerNext(c, v, stream, now, w, step).0;
    assert step.Deliver? || step.Ack? || step.Terminate? || v'.progress == v.progress;
  }

  lemma NewLiveCopyIsUnsent(c: Config, s: State, a: Action, i: nat)
    requires Inv(c, s) && |s.stream| <= i < |Next(c, s, a).stream| && Next(c, s, a).stream[i].id.Live?
    ensures Unsent(s, Next(c, s, a).stream[i].id.row)
  {
    assert a.RelayDoes?;
    var tx := RelayOf(s.outbox, a.r);
    assert tx.Open? && ClaimOk(s.outbox, s.stream, tx);
  }

  lemma ApplierWasApplying(c: Config, s: State, a: Action, id: Id)
    requires Inv(c, s) && WasApplied(Next(c, s, a).view, id) && !WasApplied(s.view, id)
    ensures exists w :: Applying(s, w, id)
  {
    var v, v' := s.view, Next(c, s, a).view;
    assert v'.applied != v.applied;
    assert a.WorkerDoes?;
    OnlyCommitsApply(c, v, s.stream, s.now, a.w, a.workerStep);
    CommitIsInTime(c, s, a.w, a.workerStep);
    assert forall k :: 0 <= k < |v.applied| ==> v'.applied[k] == v'.applied[..|v.applied|][k] == v.applied[k];
    assert v'.applied[|v.applied|].id == id;
    assert Applying(s, a.w, id);
  }

  lemma CommitIsInTime(c: Config, s: State, w: nat, step: WorkerStep)
    requires Next(c, s, WorkerDoes(w, step)).view.applied != s.view.applied
    ensures var at := WorkerOf(s.view, w);
            at.Counted? && s.now <= at.job.deadline && EffectOf(at.job.body).Apply?
  {
  }

  lemma ApplyingBefore(c: Config, s: State, a: Action, w: nat, row: int)
    requires Inv(c, s) && row in s.outbox.born && Applying(Next(c, s, a), w, Live(row))
    ensures Applying(s, w, Live(row)) || (Coming(c, s, row) && EffectOf(s.outbox.born[row]).Apply?)
  {
    if a.WorkerDoes? && a.w == w && a.workerStep.Deliver? {
      DeliveredWasDeliverable(c, s, w, a.workerStep.copy);
    } else if a.WorkerDoes? && a.w == w {
      InHandBefore(c, s, w, a.workerStep);
    } else {
      OthersWait(c, s, a, w);
    }
  }

  lemma SettingAsideBefore(c: Config, s: State, a: Action, w: nat, row: int)
    requires Inv(c, s) && row in s.outbox.born && SettingAside(c, Next(c, s, a), w, Live(row))
    ensures SettingAside(c, s, w, Live(row)) || Coming(c, s, row)
  {
    if a.WorkerDoes? && a.w == w && a.workerStep.Deliver? {
      DeliveredWasDeliverable(c, s, w, a.workerStep.copy);
    } else if a.WorkerDoes? && a.w == w {
      InHandBefore(c, s, w, a.workerStep);
    } else {
      OthersWait(c, s, a, w);
    }
  }

  lemma DeliveredWasDeliverable(c: Config, s: State, w: nat, i: nat)
    ensures var s' := Next(c, s, WorkerDoes(w, Deliver(i)));
            || s' == s
            || (Deliverable(c, s, i) && WorkerOf(s'.view, w).Received?
                && WorkerOf(s'.view, w).job.id == s.stream[i].id && WorkerOf(s'.view, w).job.body == s.stream[i].body)
  {
  }

  lemma InHandBefore(c: Config, s: State, w: nat, step: WorkerStep)
    requires !step.Deliver?
    ensures var s' := Next(c, s, WorkerDoes(w, step));
            forall id :: (Applying(s', w, id) ==> Applying(s, w, id))
                         && (SettingAside(c, s', w, id) ==> SettingAside(c, s, w, id))
  {
  }

  lemma OthersWait(c: Config, s: State, a: Action, w: nat)
    requires a.WorkerDoes? ==> a.w != w
    ensures WorkerOf(Next(c, s, a).view, w) == WorkerOf(s.view, w)
    ensures s.now <= Next(c, s, a).now
  {
    if a.WorkerDoes? {
      WorkersMoveAlone(c, s.view, s.stream, s.now, a.w, a.workerStep, w);
    }
  }

  lemma StorerWasSettingAside(c: Config, s: State, a: Action, id: Id)
    requires Has(Next(c, s, a).stream, Dead(id)) && !Has(s.stream, Dead(id))
    ensures exists w :: SettingAside(c, s, w, id)
  {
    var j :| 0 <= j < |Next(c, s, a).stream| && Next(c, s, a).stream[j].id == Dead(id);
    assert a.WorkerDoes?;
    assert SettingAside(c, s, a.w, id);
  }

  // ---------- the ways back ----------

  lemma CanApplyIt(c: Config, s: State, row: int) returns (t: State)
    requires Inv(c, s) && Startable(c) && row in s.outbox.born && MayBeApplied(c, s, row)
    ensures Reaches(c, s, t) && WasApplied(t.view, Live(row))
  {
    assert Exec(c, s, []) == s;
    t := s;
    if !WasApplied(s.view, Live(row)) {
      var w: nat;
      if u: nat :| Applying(s, u, Live(row)) {
        w := u;
      } else {
        t := TakesIt(c, s, row);
        w := 0;
      }
      t := Finishes(c, s, t, w);
    }
  }

  lemma TakesIt(c: Config, s: State, row: int) returns (t: State)
    requires Inv(c, s) && Startable(c) && row in s.outbox.born && Coming(c, s, row)
    requires EffectOf(s.outbox.born[row]).Apply?
    ensures Reaches(c, s, t) && Applying(t, 0, Live(row))
  {
    t := BringsBack(c, s, row);
    ReachesKeepsInv(c, s, t);
    ReachesKeepsBorn(c, s, t, row);
    var i: nat :| Deliverable(c, t, i) && t.stream[i].id == Live(row);
    assert t.stream[i].id.Row() == row;
    t := Takes(c, s, t, i);
  }

  lemma CanSetItAside(c: Config, s: State, row: int) returns (t: State)
    requires Inv(c, s) && Startable(c) && row in s.outbox.born && MayBeSetAside(c, s, row)
    ensures Reaches(c, s, t) && Has(t.stream, Dead(Live(row)))
  {
    assert Exec(c, s, []) == s;
    t := s;
    if !Has(s.stream, Dead(Live(row))) {
      if w: nat :| SettingAside(c, s, w, Live(row)) {
        t := StoresDeadLetter(c, s, s, w);
      } else {
        t := BringsBack(c, s, row);
        var i: nat :| Deliverable(c, t, i) && t.stream[i].id == Live(row);
        t := FailsEveryTime(c, s, t, i);
      }
    }
  }

  lemma ReachesKeepsInv(c: Config, s: State, t: State)
    requires Inv(c, s) && Reaches(c, s, t)
    ensures Inv(c, t) && s.stream <= t.stream
  {
    var run :| Exec(c, s, run) == t;
    EveryRunKeepsInv(c, s, run);
  }

  lemma ReachesKeepsBorn(c: Config, s: State, t: State, row: int)
    requires Reaches(c, s, t) && row in s.outbox.born
    ensures row in t.outbox.born && t.outbox.born[row] == s.outbox.born[row]
  {
    var run :| Exec(c, s, run) == t;
    RunKeepsBorn(c, s, run, row);
  }

  lemma {:induction false} RunKeepsBorn(c: Config, s: State, run: seq<Action>, row: int)
    requires row in s.outbox.born
    ensures var o := Exec(c, s, run).outbox; row in o.born && o.born[row] == s.outbox.born[row]
    decreases run
  {
    if run != [] {
      BornStays(c, s, run[0], row);
      RunKeepsBorn(c, Next(c, s, run[0]), run[1..], row);
    }
  }

  // ---------- from a delivery to its end ----------

  /** A free worker takes the message; worker 0 is freed for it. */
  lemma Takes(c: Config, s: State, t: State, i: nat) returns (u: State)
    requires Reaches(c, s, t) && Deliverable(c, t, i)
    ensures Reaches(c, s, u)
    ensures var p := ProgressOf(t.view, i);
            var job := Job(i, t.stream[i].id, t.stream[i].body, p.deliveries + 1, t.now + c.ackWait);
            u == t.(view := t.view.(workers := t.view.workers[0 := Received(job)],
                                    progress := t.view.progress[i := p.(deliveries := p.deliveries + 1)]))
  {
    ReachesStep(c, s, t, WorkerDoes(0, Die));
    var t1 := Next(c, t, WorkerDoes(0, Die));
    assert t1 == t.(view := SetWorker(t.view, 0, Free));
    ReachesStep(c, s, t1, WorkerDoes(0, Deliver(i)));
    u := Next(c, t1, WorkerDoes(0, Deliver(i)));
    assert u.view.workers == t.view.workers[0 := u.view.workers[0]];
  }

  /** A worker in hand of a message it may set aside does so. */
  lemma StoresDeadLetter(c: Config, s: State, t: State, w: nat) returns (u: State)
    requires Reaches(c, s, t) && !WorkerOf(t.view, w).Free?
    requires SettingAside(c, t, w, WorkerOf(t.view, w).job.id)
    ensures Reaches(c, s, u) && Has(u.stream, Dead(WorkerOf(t.view, w).job.id))
  {
    var at := WorkerOf(t.view, w);
    u := t;
    if !at.Failed? {
      var step := if at.job.attempt >= c.maxDeliver then Fail else Decide;
      ReachesStep(c, s, t, WorkerDoes(w, step));
      u := Next(c, t, WorkerDoes(w, step));
      assert u.stream == t.stream && WorkerOf(u.view, w) == Failed(at.job, at.job.attempt < c.maxDeliver);
    }
    StoreIsStored(c, u.stream, Dead(at.job.id), at.job.body, u.now);
    ReachesStep(c, s, u, WorkerDoes(w, DeadLetter(Stored)));
    u := Next(c, u, WorkerDoes(w, DeadLetter(Stored)));
  }

  /** The message fails until its last attempt, and is then set aside. */
  lemma {:induction false} FailsEveryTime(c: Config, s: State, t: State, i: nat) returns (u: State)
    requires Reaches(c, s, t) && Deliverable(c, t, i)
    ensures Reaches(c, s, u) && Has(u.stream, Dead(t.stream[i].id))
    decreases c.maxDeliver - ProgressOf(t.view, i).deliveries
  {
    u := Takes(c, s, t, i);
    var at := WorkerOf(u.view, 0);
    if at.job.attempt >= c.maxDeliver {
      u := StoresDeadLetter(c, s, u, 0);
    } else {
      ReachesStep(c, s, u, WorkerDoes(0, Die));
      u := Next(c, u, WorkerDoes(0, Die));
      u := FailsEveryTime(c, s, u, i);
    }
  }

  /** Worker w commits its message; whoever holds a lock it needs has died. */
  lemma Finishes(c: Config, s: State, t: State, w: nat) returns (u: State)
    requires Inv(c, s) && Reaches(c, s, t) && !WorkerOf(t.view, w).Free?
    requires Applying(t, w, WorkerOf(t.view, w).job.id)
    ensures Reaches(c, s, u) && WasApplied(u.view, WorkerOf(t.view, w).job.id)
  {
    u := OthersDie(c, s, t, w);
    if WorkerOf(u.view, w).Received? {
      u := Begins(c, s, u, w);
    }
    ReachesKeepsInv(c, s, u);
    WorkerOkOf(c, u.outbox.born, u.stream, u.now, u.view, w);
    if WorkerOf(u.view, w).job.id !in u.view.processed {
      u := Commits(c, s, u, w);
    }
  }

  predicate Ready(t: State, w: nat) {
    && !WorkerOf(t.view, w).Free? && Applying(t, w, WorkerOf(t.view, w).job.id) && Alone(t.view, w)
  }

  lemma Begins(c: Config, s: State, t: State, w: nat) returns (u: State)
    requires Reaches(c, s, t) && Ready(t, w) && WorkerOf(t.view, w).Received?
    ensures Reaches(c, s, u) && Ready(u, w) && WorkerOf(u.view, w) == Begun(WorkerOf(t.view, w).job, t.now)
  {
    ReachesStep(c, s, t, WorkerDoes(w, Decide));
    u := Next(c, t, WorkerDoes(w, Decide));
  }

  lemma Commits(c: Config, s: State, t: State, w: nat) returns (u: State)
    requires Reaches(c, s, t) && Ready(t, w) && !WorkerOf(t.view, w).Received?
    requires WorkerOf(t.view, w).job.id !in t.view.processed
    ensures Reaches(c, s, u) && WasApplied(u.view, WorkerOf(t.view, w).job.id)
  {
    u := t;
    if WorkerOf(u.view, w).Begun? {
      ReachesStep(c, s, u, WorkerDoes(w, ClaimEvent));
      u := Next(c, u, WorkerDoes(w, ClaimEvent));
      assert u == t.(view := SetWorker(t.view, w, Claimed(WorkerOf(t.view, w).job, WorkerOf(t.view, w).since)));
    }
    u := CountsAndCommits(c, s, u, w);
  }

  lemma CountsAndCommits(c: Config, s: State, t: State, w: nat) returns (u: State)
    requires Reaches(c, s, t) && Ready(t, w) && (WorkerOf(t.view, w).Claimed? || WorkerOf(t.view, w).Counted?)
    ensures Reaches(c, s, u) && WasApplied(u.view, WorkerOf(t.view, w).job.id)
  {
    u := t;
    if WorkerOf(u.view, w).Claimed? {
      ReachesStep(c, s, u, WorkerDoes(w, Count));
      u := Next(c, u, WorkerDoes(w, Count));
    }
    ReachesStep(c, s, u, WorkerDoes(w, CommitEvent(true)));
    u := Next(c, u, WorkerDoes(w, CommitEvent(true)));
    assert u.view.applied[|t.view.applied|].id == WorkerOf(t.view, w).job.id;
  }

  predicate Alone(v: View, w: nat) {
    forall u :: u in v.workers && u != w ==> v.workers[u].Free?
  }

  function Busy(v: View, w: nat): set<nat> {
    set u | u in v.workers && u != w && !v.workers[u].Free?
  }

  lemma {:induction false} OthersDie(c: Config, s: State, t: State, w: nat) returns (u: State)
    requires Reaches(c, s, t)
    ensures Reaches(c, s, u) && Alone(u.view, w) && WorkerOf(u.view, w) == WorkerOf(t.view, w) && u.now == t.now
    decreases |Busy(t.view, w)|
  {
    if Alone(t.view, w) {
      u := t;
    } else {
      var q :| q in t.view.workers && q != w && !t.view.workers[q].Free?;
      ReachesStep(c, s, t, WorkerDoes(q, Die));
      u := Next(c, t, WorkerDoes(q, Die));
      assert u == t.(view := SetWorker(t.view, q, Free));
      assert Busy(u.view, w) == Busy(t.view, w) - {q};
      u := OthersDie(c, s, u, w);
    }
  }

  // ---------- from the table to a delivery ----------

  /** A state in which a copy can be delivered: an unsent row is published once more. */
  lemma BringsBack(c: Config, s: State, row: int) returns (t: State)
    requires Inv(c, s) && Startable(c) && row in s.outbox.born && Coming(c, s, row)
    ensures Reaches(c, s, t) && OnItsWay(c, t, row)
  {
    assert Exec(c, s, []) == s;
    t := s;
    if Unsent(s, row) {
      t := RelaysGiveUp(c, s, s);
      t := IsReplayed(c, s, t, row);
      ReachesKeepsInv(c, s, t);
      Waits(c, s, t, c.window);
      t := t.(now := t.now + c.window);
      t := ComesFirst(c, s, t, row);
      t := IsPublished(c, s, t, row);
    }
  }

  predicate Settled(o: Outbox) {
    forall r :: r in o.relays ==> o.relays[r].Idle?
  }

  function Working(o: Outbox): set<nat> {
    set r | r in o.relays && !o.relays[r].Idle?
  }

  lemma {:induction false} RelaysGiveUp(c: Config, s: State, t: State) returns (u: State)
    requires Reaches(c, s, t)
    ensures Reaches(c, s, u) && Settled(u.outbox) && u == t.(outbox := t.outbox.(relays := u.outbox.relays))
    decreases |Working(t.outbox)|
  {
    if Settled(t.outbox) {
      u := t;
    } else {
      var r :| r in t.outbox.relays && !t.outbox.relays[r].Idle?;
      ReachesStep(c, s, t, RelayDoes(r, Abandon));
      u := Next(c, t, RelayDoes(r, Abandon));
      assert Working(u.outbox) == Working(t.outbox) - {r};
      u := RelaysGiveUp(c, s, u);
    }
  }

  lemma IsReplayed(c: Config, s: State, t: State, row: int) returns (u: State)
    requires Reaches(c, s, t) && Settled(t.outbox) && Unsent(t, row)
    ensures Reaches(c, s, u) && Settled(u.outbox) && row in Claimable(u.outbox)
    ensures u.now == t.now && u.stream == t.stream && u.view == t.view
  {
    ReachesStep(c, s, t, Replay(row));
    u := Next(c, t, Replay(row));
  }

  /** Every smaller row turns out to be impossible to publish and is quarantined. */
  lemma {:induction false} ComesFirst(c: Config, s: State, t: State, row: int) returns (u: State)
    requires Reaches(c, s, t) && c.batch > 0 && Settled(t.outbox) && row in Claimable(t.outbox)
    ensures Reaches(c, s, u) && Settled(u.outbox) && row in Claimable(u.outbox) && Least(Claimable(u.outbox)) == row
    ensures u.now == t.now && u.stream == t.stream && u.view == t.view
    decreases |Claimable(t.outbox)|
  {
    u := t;
    var m := Least(Claimable(t.outbox));
    if m != row {
      u := IsQuarantined(c, s, t, m);
      assert Claimable(u.outbox) == Claimable(t.outbox) - {m};
      u := ComesFirst(c, s, u, row);
    }
  }

  lemma LeastIsClaimed(c: Config, s: State, t: State) returns (u: State)
    requires Reaches(c, s, t) && c.batch > 0 && Settled(t.outbox) && Claimable(t.outbox) != {}
    ensures Reaches(c, s, u)
    ensures var batch := FirstIds(Claimable(t.outbox), c.batch);
            && batch != [] && batch[0] == Least(Claimable(t.outbox))
            && u == t.(outbox := SetRelay(t.outbox, 0, Open(batch, 0, false, t.now)))
  {
    ReachesStep(c, s, t, RelayDoes(0, Claim));
    u := Next(c, t, RelayDoes(0, Claim));
  }

  lemma IsQuarantined(c: Config, s: State, t: State, m: int) returns (u: State)
    requires Reaches(c, s, t) && c.batch > 0 && Settled(t.outbox)
    requires m in Claimable(t.outbox) && m == Least(Claimable(t.outbox))
    ensures Reaches(c, s, u) && Settled(u.outbox) && u.now == t.now && u.stream == t.stream && u.view == t.view
    ensures u.outbox.rows == t.outbox.rows[m := t.outbox.rows[m].(failedAt := Some(t.now))]
  {
    u := LeastIsClaimed(c, s, t);
    ReachesStep(c, s, u, RelayDoes(0, Publish(Impossible)));
    u := Next(c, u, RelayDoes(0, Publish(Impossible)));
    assert u.outbox.relays == t.outbox.relays[0 := Rejected(m)];
    ReachesStep(c, s, u, RelayDoes(0, Quarantine));
    u := Next(c, u, RelayDoes(0, Quarantine));
  }

  /** It is published once its id has been forgotten, which makes a new copy. */
  lemma IsPublished(c: Config, s: State, t: State, row: int) returns (u: State)
    requires Inv(c, s) && Startable(c) && Reaches(c, s, t) && Settled(t.outbox)
    requires row in Claimable(t.outbox) && row == Least(Claimable(t.outbox))
    requires forall j :: 0 <= j < |t.stream| ==> t.stream[j].storedAt + c.window <= t.now
    ensures Reaches(c, s, u) && Deliverable(c, u, |t.stream|) && u.stream[|t.stream|].id == Live(row)
  {
    ReachesKeepsInv(c, s, t);
    u := LeastIsClaimed(c, s, t);
    ReachesStep(c, s, u, RelayDoes(0, Publish(Stored)));
    u := Next(c, u, RelayDoes(0, Publish(Stored)));
    assert u.stream == t.stream + [Copy(Live(row), t.outbox.rows[row].body, t.now)];
    assert forall i :: i in t.view.progress ==> FateOk(c, t.stream, t.view, i);
  }

  // ---------- an event that is lost ----------

  /** Under every configuration a run, with no failure in it, that loses an event of interest: it
      is published and marked, and no worker takes it before it is too old. */
  lemma PublishedAndLost(c: Config) returns (s: State)
    requires Startable(c)
    ensures Reaches(c, Start, s) && 1 in s.outbox.born && EffectOf(s.outbox.born[1]) == Apply("t")
    ensures s.outbox.rows.Keys == {1} && s.outbox.rows[1].publishedAt.Some?
    ensures !MayBeApplied(c, s, 1) && !MayBeSetAside(c, s, 1)
  {
    assert Exec(c, Start, []) == Start;
    ReachesStep(c, Start, Start, Insert(1, Sample));
    s := Next(c, Start, Insert(1, Sample));
    OnlyRowIsClaimed(c, s);
    s := OnlyRowIsMarked(c, s);
    Waits(c, Start, s, c.maxAge + 1);
    s := s.(now := s.now + (c.maxAge + 1));
    assert EffectOf(Sample) == Apply("t");
    assert s.view == Start.view;
    assert forall w :: WorkerOf(s.view, w).Free?;
  }

  lemma OnlyRowIsMarked(c: Config, s: State) returns (t: State)
    requires Reaches(c, Start, s)
    requires s == Next(c, Start, Insert(1, Sample))
    requires Next(c, s, RelayDoes(0, Claim)) == s.(outbox := SetRelay(s.outbox, 0, Open([1], 0, false, s.now)))
    ensures Reaches(c, Start, t)
    ensures t == State(0, Outbox(map[1 := Row(Sample, Some(0), None)], map[1 := Sample], map[0 := Idle]),
                       [Copy(Live(1), Sample, 0)], Start.view)
  {
    ReachesStep(c, Start, s, RelayDoes(0, Claim));
    t := Next(c, s, RelayDoes(0, Claim));
    ReachesStep(c, Start, t, RelayDoes(0, Publish(Stored)));
    t := Next(c, t, RelayDoes(0, Publish(Stored)));
    assert t.stream == [Copy(Live(1), Sample, 0)];
    ReachesStep(c, Start, t, RelayDoes(0, Mark));
    t := Next(c, t, RelayDoes(0, Mark));
    ReachesStep(c, Start, t, RelayDoes(0, Commit));
    t := Next(c, t, RelayDoes(0, Commit));
    assert t.outbox.rows == map[1 := Row(Sample, Some(0), None)];
    assert t.outbox.relays == map[0 := Idle];
  }
}
