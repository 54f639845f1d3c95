/** Exactly which configurations apply each event at most once: the retention floor of
    config.Validate (internal/platform/config/config.go), a consumer that delivers once, and
    dead letters that come back. */
module PipelineOnce {
  import opened Results
  import opened MessageIds
  import opened Pipeline
  import opened PipelineSafety
  import opened PipelineTheorems
  import opened PipelineRetention
  import opened PipelineScenarios

  /** No event is applied twice, under whatever message ids it arrives. */
  predicate OncePerEvent(applied: seq<Applied>) {
    forall i, j :: 0 <= i < j < |applied| ==> applied[i].id.Row() != applied[j].id.Row()
  }

  /** Unless dead letters come back, an event has one message id. */
  lemma OncePerMessageIsEnough(c: Config, s: State)
    requires !c.loops && Inv(c, s) && Distinct(s.view.applied)
    ensures OncePerEvent(s.view.applied)
  {
    forall i | 0 <= i < |s.view.applied| ensures s.view.applied[i].id.Live? {
      assert AppliedOk(c, s.outbox.born, s.now, s.view.applied[i]);
    }
  }

  // ---------- copies of one message ----------

  /** Two copies of a message are at least the duplicate window apart. */
  predicate Apart(c: Config, stream: seq<Copy>) {
    forall i, j :: 0 <= i < j < |stream| && stream[i].id == stream[j].id ==>
      stream[i].storedAt + c.window <= stream[j].storedAt
  }

  lemma StoreKeepsApart(c: Config, stream: seq<Copy>, id: Id, body: Body, now: int)
    requires Apart(c, stream)
    ensures Apart(c, Store(c, stream, id, body, now))
  {
    var longer := Store(c, stream, id, body, now);
    if longer != stream {
      assert forall j :: 0 <= j < |stream| && stream[j].id == id ==> stream[j].storedAt + c.window <= now;
      assert forall j :: 0 <= j < |stream| ==> longer[j] == stream[j];
    }
  }

  lemma StepKeepsApart(c: Config, s: State, a: Action)
    requires Apart(c, s.stream)
    ensures Apart(c, Next(c, s, a).stream)
  {
    match a
    case RelayDoes(r, Publish(_)) =>
      var tx := RelayOf(s.outbox, r);
      if tx.Open? && tx.acked < |tx.batch| && tx.batch[tx.acked] in s.outbox.rows {
        StoreKeepsApart(c, s.stream, Live(tx.batch[tx.acked]), s.outbox.rows[tx.batch[tx.acked]].body, s.now);
      }
    case WorkerDoes(w, DeadLetter(_)) =>
      var at := WorkerOf(s.view, w);
      if !at.Free? {
        StoreKeepsApart(c, s.stream, Dead(at.job.id), at.job.body, s.now);
      }
    case _ =>
  }

  // ---------- an application lies within its copy's reach ----------

  /** The copy an application came from was stored at most its age and one handler before. */
  predicate Reached(c: Config, stream: seq<Copy>, e: Applied) {
    e.copy < |stream| && stream[e.copy].id == e.id && e.at <= stream[e.copy].storedAt + c.maxAge + c.ackWait
  }

  predicate InTime(c: Config, s: State) {
    && (forall k :: 0 <= k < |s.view.applied| ==> Reached(c, s.stream, s.view.applied[k]))
    && (forall w :: w in s.view.workers && Holds(s.view.workers[w]) ==>
          s.view.workers[w].since <= s.view.workers[w].job.deadline)
  }

  lemma StepKeepsInTime(c: Config, s: State, a: Action)
    requires Inv(c, s) && InTime(c, s)
    ensures InTime(c, Next(c, s, a))
  {
    if a.WorkerDoes? {
      WorkerKeepsInTime(c, s, a.w, a.workerStep);
    } else {
      OthersKeepInTime(c, s, a);
    }
  }

  lemma OthersKeepInTime(c: Config, s: State, a: Action)
    requires Inv(c, s) && InTime(c, s) && !a.WorkerDoes?
    ensures InTime(c, Next(c, s, a))
  {
    var s' := Next(c, s, a);
    StepKeepsInv(c, s, a);
    OtherStepsForget(c, s, a);
    ReachedStays(c, s.stream, s'.stream, s.view.applied);
  }

  lemma ReachedStays(c: Config, stream: seq<Copy>, longer: seq<Copy>, applied: seq<Applied>)
    requires stream <= longer && forall k :: 0 <= k < |applied| ==> Reached(c, stream, applied[k])
    ensures forall k :: 0 <= k < |applied| ==> Reached(c, longer, applied[k])
  {
    forall k | 0 <= k < |applied| ensures Reached(c, longer, applied[k]) {
      assert Reached(c, stream, applied[k]);
    }
  }

  lemma WorkerKeepsInTime(c: Config, s: State, w: nat, step: WorkerStep)
    requires Inv(c, s) && InTime(c, s)
    ensures InTime(c, Next(c, s, WorkerDoes(w, step)))
  {
    var s' := Next(c, s, WorkerDoes(w, step));
    StepKeepsInv(c, s, WorkerDoes(w, step));
    OwnClaimInTime(c, s, w, step);
    OthersClaimInTime(c, s, w, step);
    ReachedLater(c, s.stream, s.view.applied, s'.view.applied);
    ReachedStays(c, s.stream, s'.stream, s'.view.applied);
  }

  lemma ReachedLater(c: Config, stream: seq<Copy>, applied: seq<Applied>, later: seq<Applied>)
    requires applied <= later && forall k :: 0 <= k < |applied| ==> Reached(c, stream, applied[k])
    requires forall k :: |applied| <= k < |later| ==> Reached(c, stream, later[k])
    ensures forall k :: 0 <= k < |later| ==> Reached(c, stream, later[k])
  {
    assert forall k :: 0 <= k < |applied| ==> later[k] == applied[k];
  }

  lemma OthersClaimInTime(c: Config, s: State, w: nat, step: WorkerStep)
    requires InTime(c, s)
    ensures var v' := Next(c, s, WorkerDoes(w, step)).view;
            forall u :: u in v'.workers && u != w && Holds(v'.workers[u]) ==>
              v'.workers[u].since <= v'.workers[u].job.deadline
  {
    var v' := Next(c, s, WorkerDoes(w, step)).view;
    forall u | u in v'.workers && u != w && Holds(v'.workers[u])
      ensures v'.workers[u].since <= v'.workers[u].job.deadline
    {
      WorkersMoveAlone(c, s.view, s.stream, s.now, w, step, u);
      assert WorkerOf(v', u) == WorkerOf(s.view, u);
    }
  }

  /** A claim is made before the deadline; a commit applies the claimed message. */
  lemma OwnClaimInTime(c: Config, s: State, w: nat, step: WorkerStep)
    requires Inv(c, s) && InTime(c, s)
    ensures var v' := Next(c, s, WorkerDoes(w, step)).view;
            && (Holds(WorkerOf(v', w)) ==> WorkerOf(v', w).since <= WorkerOf(v', w).job.deadline)
            && s.view.applied <= v'.applied
            && (forall k :: |s.view.applied| <= k < |v'.applied| ==> Reached(c, s.stream, v'.applied[k]))
  {
    WorkerOkOf(c, s.outbox.born, s.stream, s.now, s.view, w);
    var v' := Next(c, s, WorkerDoes(w, step)).view;
    if step.CommitEvent? && v' != s.view {
      CommitChanges(c, s.view, s.stream, s.now, w, step.told);
    } else {
      OnlyCommitsApply(c, s.view, s.stream, s.now, w, step);
      OnlyClaimsBegin(c, s.view, s.stream, s.now, w, step);
    }
  }

  lemma OnlyClaimsBegin(c: Config, v: View, stream: seq<Copy>, now: int, w: nat, step: WorkerStep)
    ensures var at, at' := WorkerOf(v, w), WorkerOf(WorkerNext(c, v, stream, now, w, step).0, w);
            Holds(at') ==>
              || (Holds(at) && at'.job == at.job && at'.since == at.since)
              || (at.Begun? && at'.job == at.job && at'.since == at.since && now <= at.job.deadline)
  {
  }

  // ---------- a consumer that delivers each message once ----------

  predicate Working(at: Worker) {
    at.Received? || at.Begun? || at.Claimed? || at.Counted?
  }

  /** Every copy is delivered at most once, and so worked on and applied at most once. */
  predicate OneUse(v: View) {
    && (forall w :: w in v.workers && !v.workers[w].Free? ==> ProgressOf(v, v.workers[w].job.copy).deliveries > 0)
    && (forall w, u :: w in v.workers && u in v.workers && w != u && !v.workers[w].Free? && !v.workers[u].Free? ==>
          v.workers[w].job.copy != v.workers[u].job.copy)
    && (forall k :: 0 <= k < |v.applied| ==> ProgressOf(v, v.applied[k].copy).deliveries > 0)
    && (forall k, w :: 0 <= k < |v.applied| && w in v.workers && Working(v.workers[w]) ==>
          v.applied[k].copy != v.workers[w].job.copy)
    && (forall k, l :: 0 <= k < l < |v.applied| ==> v.applied[k].copy != v.applied[l].copy)
  }

  /** A worker that goes on with its job, or stops, without applying anything. */
  lemma MoveKeepsOneUse(v: View, v': View, w: nat)
    requires OneUse(v) && v'.applied == v.applied && v'.workers == v.workers[w := WorkerOf(v', w)]
    requires forall i :: ProgressOf(v', i).deliveries >= ProgressOf(v, i).deliveries
    requires var at, at' := WorkerOf(v, w), WorkerOf(v', w);
             at'.Free? || (!at.Free? && at'.job.copy == at.job.copy && (Working(at') ==> Working(at)))
    ensures OneUse(v')
  {
  }

  lemma DeliverKeepsOneUse(c: Config, v: View, stream: seq<Copy>, now: int, w: nat, i: nat)
    requires c.maxDeliver == 1 && OneUse(v)
    ensures OneUse(WorkerNext(c, v, stream, now, w, Deliver(i)).0)
  {
    var v' := WorkerNext(c, v, stream, now, w, Deliver(i)).0;
    if v' != v {
      assert ProgressOf(v, i).deliveries == 0;
      assert v'.workers == v.workers[w := WorkerOf(v', w)] && WorkerOf(v', w).job.copy == i;
      assert forall j :: j != i ==> ProgressOf(v', j) == ProgressOf(v, j);
      assert v'.applied == v.applied;
    }
  }

  lemma CommitKeepsOneUse(c: Config, v: View, stream: seq<Copy>, now: int, w: nat, told: bool)
    requires OneUse(v)
    ensures OneUse(WorkerNext(c, v, stream, now, w, CommitEvent(told)).0)
  {
    var v' := WorkerNext(c, v, stream, now, w, CommitEvent(told)).0;
    if v' != v {
      CommitChanges(c, v, stream, now, w, told);
      var at, at' := WorkerOf(v, w), WorkerOf(v', w);
      assert v'.workers == v.workers[w := at'] && !Working(at') && !at'.Free? && at'.job == at.job;
      CommittedOneUse(v, v', w);
    }
  }

  lemma CommittedOneUse(v: View, v': View, w: nat)
    requires OneUse(v) && w in v.workers && v.workers[w].Counted? && EffectOf(v.workers[w].job.body).Apply?
    requires v'.progress == v.progress && v'.applied == v.applied + [Application(v.workers[w])]
    requires v'.workers == v.workers[w := WorkerOf(v', w)]
    requires var at' := WorkerOf(v', w);
             !Working(at') && !at'.Free? && at'.job == v.workers[w].job
    ensures OneUse(v')
  {
    assert forall i :: ProgressOf(v', i) == ProgressOf(v, i);
    assert Working(v.workers[w]);
  }

  lemma StepKeepsOneUse(c: Config, s: State, a: Action)
    requires c.maxDeliver == 1 && OneUse(s.view)
    ensures OneUse(Next(c, s, a).view)
  {
    match a
    case WorkerDoes(w, Deliver(i)) => DeliverKeepsOneUse(c, s.view, s.stream, s.now, w, i);
    case WorkerDoes(w, CommitEvent(told)) => CommitKeepsOneUse(c, s.view, s.stream, s.now, w, told);
    case WorkerDoes(w, step) => OtherMovesKeepOneUse(c, s.view, s.stream, s.now, w, step);
    case _ => assert forall i :: ProgressOf(Next(c, s, a).view, i) == ProgressOf(s.view, i);
  }

  lemma OtherMovesKeepOneUse(c: Config, v: View, stream: seq<Copy>, now: int, w: nat, step: WorkerStep)
    requires OneUse(v) && !step.Deliver? && !step.CommitEvent?
    ensures OneUse(WorkerNext(c, v, stream, now, w, step).0)
  {
    var v' := WorkerNext(c, v, stream, now, w, step).0;
    if v' != v {
      OtherMoves(c, v, stream, now, w, step);
      MoveKeepsOneUse(v, v', w);
    }
  }

  lemma OtherMoves(c: Config, v: View, stream: seq<Copy>, now: int, w: nat, step: WorkerStep)
    requires !step.Deliver? && !step.CommitEvent? && WorkerNext(c, v, stream, now, w, step).0 != v
    ensures var v' := WorkerNext(c, v, stream, now, w, step).0;
            var at, at' := WorkerOf(v, w), WorkerOf(WorkerNext(c, v, stream, now, w, step).0, w);
            && v'.applied == v.applied && v'.workers == v.workers[w := at']
            && (forall i :: ProgressOf(v', i).deliveries == ProgressOf(v, i).deliveries)
            && (at'.Free? || (!at.Free? && at'.job.copy == at.job.copy && (Working(at') ==> Working(at))))
  {
  }

  predicate Tracked(c: Config, s: State) {
    Inv(c, s) && Apart(c, s.stream) && InTime(c, s) && (c.maxDeliver == 1 ==> OneUse(s.view))
  }

  lemma {:induction false} RunKeepsTracked(c: Config, s: State, run: seq<Action>)
    requires Tracked(c, s)
    ensures Tracked(c, Exec(c, s, run))
    decreases run
  {
    if run != [] {
      StepKeepsInv(c, s, run[0]);
      StepKeepsApart(c, s, run[0]);
      StepKeepsInTime(c, s, run[0]);
      if c.maxDeliver == 1 {
        StepKeepsOneUse(c, s, run[0]);
      }
      RunKeepsTracked(c, Next(c, s, run[0]), run[1..]);
    }
  }

  /** One delivery per copy, and copies further apart than a copy reaches: without late
      copies, no message is applied twice, however short the retention. */
  lemma OneDeliveryIsEnough(c: Config, run: seq<Action>)
    requires c.maxDeliver == 1 && c.window > c.maxAge + c.ackWait
    requires NoLateCopies(Exec(c, Start, run))
    ensures Distinct(Exec(c, Start, run).view.applied)
  {
    RunKeepsTracked(c, Start, run);
    var s := Exec(c, Start, run);
    forall k, l | 0 <= k < l < |s.view.applied| ensures s.view.applied[k].id != s.view.applied[l].id {
      var a, b := s.view.applied[k], s.view.applied[l];
      assert Reached(c, s.stream, a) && Reached(c, s.stream, b) && a.copy != b.copy;
      var p, q := s.stream[a.copy], s.stream[b.copy];
      assert p.id == a.id && q.id == b.id;
      assert a.id == b.id ==> q.storedAt <= a.at && p.storedAt <= b.at;
    }
  }

  // ---------- double applications ----------

  /** Worker 0 takes message i now and begins its transaction `wait` later. */
  lemma TakesAndBegins(c: Config, s: State, i: nat) returns (t: State)
    requires OnlyWorker(s) && CanTake(c, s, i) && Reaches(c, Start, s)
    ensures Reaches(c, Start, t)
    ensures t == Taken(c, s, i).(view := Taken(c, s, i).view.(workers := map[0 := Begun(JobOf(c, s, i), s.now)]))
  {
    OnlyWorkerTakes(c, s, i);
    OnlyWorkerDecides(c, Taken(c, s, i));
    t := Taken(c, s, i).(view := SetWorker(Taken(c, s, i).view, 0, Begun(JobOf(c, s, i), s.now)));
    assert t.view.workers == map[0 := Begun(JobOf(c, s, i), s.now)];
  }

  /** A message applied, its dedup row pruned while a second delivery of it, begun at
      `again`, is at work, and the message applied a second time. */
  lemma PrunedAndAppliedAgain(c: Config, s: State, id: Id, at: int, i: nat) returns (t: State)
    requires Reaches(c, Start, s) && OnlyWorker(s) && CanTake(c, s, i) && s.stream[i].id == id
    requires s.view.processed == map[id := at] && at <= s.now
    requires at + c.keepProcessed < s.now + c.ackWait && c.keepProcessed >= 0 && c.ackWait > 0
    ensures Reaches(c, Start, t) && t.stream == s.stream
    ensures t.view.applied == s.view.applied + [Applied(id, i, "t", 0, s.now)]
  {
    t := TakesAndBegins(c, s, i);
    var later := if at + c.keepProcessed < s.now then s.now else at + c.keepProcessed + 1;
    Waits(c, Start, t, later - s.now);
    t := t.(now := later);
    DedupRowIsPruned(c, t, id);
    t := t.(view := t.view.(processed := map[]));
    OnlyWorkerApplies(c, t, true);
    t := Done(t, true);
  }

  /** A retention shorter than the stream's age and one handler: the message, applied at once,
      is redelivered at the last moment, with no republish at all. */
  lemma RedeliveredTooLate(c: Config) returns (t: State)
    requires Startable(c) && c.maxDeliver > 1 && FloorAccepts(c) && c.keepProcessed < c.maxAge + c.ackWait
    ensures Reaches(c, Start, t) && NoLateCopies(t) && !OncePerEvent(t.view.applied)
  {
    OnlyRowStored(c);
    t := TakesAndBegins(c, Tried(0, 0), 0);
    OnlyWorkerApplies(c, t, true);
    t := Done(t, true);
    OnlyWorkerStops(c, t);
    t := t.(view := t.view.(workers := map[0 := Free]));
    Waits(c, Start, t, c.maxAge);
    t := t.(now := t.now + c.maxAge);
    assert ProgressOf(t.view, 0) == Progress(1, Outstanding);
    t := PrunedAndAppliedAgain(c, t, Live(1), 0, 0);
    assert t.view.applied == [Applied(Live(1), 0, "t", 0, 0), Applied(Live(1), 0, "t", 0, c.maxAge)];
    assert t.view.applied[0].id.Row() == t.view.applied[1].id.Row();
  }

  /** Two copies in time for one handler, where the window allows it: the message is taken
      from the first while the second is stored, and the second outlives the dedup row. */
  lemma TwoCopiesTooLate(c: Config) returns (t: State)
    requires Startable(c) && FloorAccepts(c) && c.keepProcessed < c.maxAge + c.ackWait
    requires c.window <= c.maxAge + c.ackWait
    ensures Reaches(c, Start, t) && NoLateCopies(t) && !OncePerEvent(t.view.applied)
  {
    t := AppliedBetweenCopies(c);
    Waits(c, Start, t, c.maxAge);
    t := t.(now := t.now + c.maxAge);
    assert ProgressOf(t.view, 1) == Progress(0, Outstanding);
    t := PrunedAndAppliedAgain(c, t, Live(1), c.window, 1);
    assert t.view.applied ==
           [Applied(Live(1), 0, "t", 0, c.window), Applied(Live(1), 1, "t", 0, c.window + c.maxAge)];
    assert t.view.applied[0].id.Row() == t.view.applied[1].id.Row();
  }

  lemma AppliedBetweenCopies(c: Config) returns (t: State)
    requires Startable(c) && c.window <= c.maxAge + c.ackWait
    ensures Reaches(c, Start, t) && OnlyWorker(t) && t.now == c.window
    ensures t.stream == [Copy(Live(1), Sample, 0), Copy(Live(1), Sample, c.window)]
    ensures t.view.processed == map[Live(1) := c.window] && 1 !in t.view.progress
    ensures t.view.applied == [Applied(Live(1), 0, "t", 0, c.window)]
  {
    var taken := if c.window <= c.maxAge then c.window else c.maxAge;
    OnlyRowStored(c);
    Waits(c, Start, Tried(0, 0), taken);
    t := Tried(taken, 0);
    OnlyWorkerTakes(c, t, 0);
    t := Taken(c, t, 0);
    Waits(c, Start, t, c.window - taken);
    t := t.(now := c.window);
    t := OnlyRowIsStored(c, t);
    OnlyWorkerDecides(c, t);
    t := t.(view := SetWorker(t.view, 0, Begun(t.view.workers[0].job, t.now)));
    OnlyWorkerApplies(c, t, true);
    t := Done(t, true);
    OnlyWorkerStops(c, t);
    t := t.(view := t.view.(workers := map[0 := Free]));
  }

  /** A dead letter that comes back: the last attempt's commit goes unreported, the message is
      dead-lettered, and the copy is a new message of the same event. */
  lemma LoopAppliesTwice(c: Config) returns (t: State)
    requires Startable(c) && c.loops
    ensures Reaches(c, Start, t) && NoLateCopies(t) && !OncePerEvent(t.view.applied) && t.now == 0
    ensures OrdersOf(t.view, "t") == 2 && |CommittedEvents(t, "t")| == 1
  {
    t := DeadLetteredYetApplied(c);
    t := TakesAndBegins(c, t, 1);
    OnlyWorkerApplies(c, t, true);
    t := Done(t, true);
    assert t.view.applied == [Applied(Live(1), 0, "t", 0, 0), Applied(Dead(Live(1)), 1, "t", 0, 0)];
    assert t.view.applied[0].id.Row() == t.view.applied[1].id.Row();
    assert EffectOf(Sample) == Apply("t");
    assert CommittedEvents(t, "t") == {1};
  }

  lemma DeadLetteredYetApplied(c: Config) returns (t: State)
    requires Startable(c) && c.loops
    ensures Reaches(c, Start, t) && OnlyWorker(t) && t.now == 0
    ensures t.stream == [Copy(Live(1), Sample, 0), Copy(Dead(Live(1)), Sample, 0)]
    ensures t.view.processed == map[Live(1) := 0] && 1 !in t.view.progress
    ensures t.view.counts == map["t" := Tally(1, 0)] && t.view.applied == [Applied(Live(1), 0, "t", 0, 0)]
    ensures t.outbox.born == map[1 := Sample]
  {
    var s := AppliedUnreported(c);
    ReachesStep(c, Start, s, WorkerDoes(0, DeadLetter(Stored)));
    t := Next(c, s, WorkerDoes(0, DeadLetter(Stored)));
    assert t.stream == [Copy(Live(1), Sample, 0), Copy(Dead(Live(1)), Sample, 0)];
    assert t.view.workers.Keys == {0};
    OnlyWorkerStops(c, t);
    t := t.(view := t.view.(workers := map[0 := Free]));
  }

  /** The last attempt applies the message and does not learn of it. */
  lemma AppliedUnreported(c: Config) returns (t: State)
    requires Startable(c)
    ensures Reaches(c, Start, t) && t.now == 0 && t.outbox.born == map[1 := Sample]
    ensures t.stream == [Copy(Live(1), Sample, 0)]
    ensures t.view.workers == map[0 := Failed(Job(0, Live(1), Sample, c.maxDeliver, c.ackWait), false)]
    ensures t.view.processed == map[Live(1) := 0] && 1 !in t.view.progress
    ensures t.view.counts == map["t" := Tally(1, 0)] && t.view.applied == [Applied(Live(1), 0, "t", 0, 0)]
  {
    FailsRepeatedly(c, c.maxDeliver - 1);
    t := TakesAndBegins(c, Tried(0, c.maxDeliver - 1), 0);
    OnlyWorkerApplies(c, t, false);
    t := Done(t, false);
  }

  // ---------- exactly when an event is applied at most once ----------

  /** What makes a retention long enough. */
  predicate LongEnough(c: Config) {
    || c.keepProcessed >= c.maxAge + c.ackWait
    || (c.maxDeliver == 1 && c.window > c.maxAge + c.ackWait)
  }

  /** Every configuration that starts and whose retention the floor accepts, but does not
      cover the stream's age and one handler, applies an event twice, with no late copy,
      unless it delivers once and its duplicate window is longer than that. */
  lemma ShortRetentionAppliesTwice(c: Config) returns (t: State)
    requires Startable(c) && FloorAccepts(c) && !LongEnough(c)
    ensures Reaches(c, Start, t) && NoLateCopies(t) && !OncePerEvent(t.view.applied)
  {
    if c.maxDeliver > 1 {
      t := RedeliveredTooLate(c);
    } else {
      t := TwoCopiesTooLate(c);
    }
  }

  /** Exactly which configurations keep at-most-once by themselves: over all runs in which no
      message is stored again after being applied, no event is applied twice if and only if
      dead letters do not come back, and either the dedup rows outlive the stream's age plus
      one AckWait, or every copy is delivered once and the duplicate window is longer than
      that. The floor of config.Validate, greater than the stream's age, leaves the AckWait
      out. */
  lemma RetentionThatIsEnough(c: Config)
    requires Startable(c) && FloorAccepts(c)
    ensures (forall t :: Reaches(c, Start, t) && NoLateCopies(t) ==> OncePerEvent(t.view.applied))
            <==> !c.loops && LongEnough(c)
  {
    if c.loops {
      var t := LoopAppliesTwice(c);
    } else if !LongEnough(c) {
      var t := ShortRetentionAppliesTwice(c);
    } else {
      forall t | Reaches(c, Start, t) && NoLateCopies(t) ensures OncePerEvent(t.view.applied) {
        var run :| Exec(c, Start, run) == t;
        EveryRunKeepsInv(c, Start, run);
        if c.keepProcessed >= c.maxAge + c.ackWait {
          LongRetentionIsTimely(c, t);
          PruningKeepsAtMostOnce(c, run);
        } else {
          OneDeliveryIsEnough(c, run);
        }
        OncePerMessageIsEnough(c, t);
      }
    }
  }

  /** No retention protects from a late republish: when marking failed and the relay comes
      back only after the duplicate window and the retention, every configuration applies
      the message twice. */
  lemma LateRepublishAppliesTwice(c: Config) returns (t: State)
    requires Startable(c)
    ensures Reaches(c, Start, t) && !OncePerEvent(t.view.applied)
  {
    OnlyRowStored(c);
    t := TakesAndBegins(c, Tried(0, 0), 0);
    OnlyWorkerApplies(c, t, true);
    t := Done(t, true);
    OnlyWorkerStops(c, t);
    t := t.(view := t.view.(workers := map[0 := Free]));
    var later := if c.window > c.keepProcessed then c.window else c.keepProcessed + 1;
    Waits(c, Start, t, later);
    t := t.(now := t.now + later);
    t := OnlyRowIsStored(c, t);
    assert ProgressOf(t.view, 1) == Progress(0, Outstanding);
    t := PrunedAndAppliedAgain(c, t, Live(1), 0, 1);
    assert t.view.applied == [Applied(Live(1), 0, "t", 0, 0), Applied(Live(1), 1, "t", 0, later)];
    assert t.view.applied[0].id.Row() == t.view.applied[1].id.Row();
  }

  // ---------- exactly when the counters are bounded by the committed events ----------

  predicate NoPrune(run: seq<Action>) {
    forall a :: a in run ==> !a.PruneProcessed?
  }

  /** Nothing happens before time 0. */
  predicate FromZero(s: State) {
    && s.now >= 0
    && (forall id :: id in s.view.processed ==> s.view.processed[id] >= 0)
    && (forall w :: w in s.view.workers && Begins(s.view.workers[w]) ==> s.view.workers[w].since >= 0)
  }

  predicate Begins(at: Worker) {
    at.Begun? || at.Claimed? || at.Counted?
  }

  lemma StepKeepsFromZero(c: Config, s: State, a: Action)
    requires FromZero(s)
    ensures FromZero(Next(c, s, a)) && s.now <= Next(c, s, a).now
  {
    if a.WorkerDoes? {
      var s' := Next(c, s, a);
      OwnFromZero(c, s, a.w, a.workerStep);
      forall u | u in s'.view.workers && Begins(s'.view.workers[u]) ensures s'.view.workers[u].since >= 0 {
        if u != a.w {
          WorkersMoveAlone(c, s.view, s.stream, s.now, a.w, a.workerStep, u);
          assert WorkerOf(s'.view, u) == WorkerOf(s.view, u);
        }
      }
    } else {
      OthersFromZero(c, s, a);
    }
  }

  lemma OwnFromZero(c: Config, s: State, w: nat, step: WorkerStep)
    requires FromZero(s)
    ensures var v' := Next(c, s, WorkerDoes(w, step)).view;
            && (Begins(WorkerOf(v', w)) ==> WorkerOf(v', w).since >= 0)
            && forall id :: id in v'.processed ==> v'.processed[id] >= 0
  {
    var v, v' := s.view, Next(c, s, WorkerDoes(w, step)).view;
    var at, at' := WorkerOf(v, w), WorkerOf(v', w);
    OnlyCommitsApply(c, v, s.stream, s.now, w, step);
    assert Begins(at') ==> at'.since == s.now || (Begins(at) && at'.since == at.since);
  }

  lemma OthersFromZero(c: Config, s: State, a: Action)
    requires FromZero(s) && !a.WorkerDoes?
    ensures FromZero(Next(c, s, a)) && s.now <= Next(c, s, a).now
  {
    var s' := Next(c, s, a);
    assert s'.view.workers == s.view.workers;
  }

  /** A run that takes no time prunes nothing. */
  lemma {:induction false} WithoutPrunes(c: Config, run: seq<Action>) returns (unpruned: seq<Action>)
    requires c.keepProcessed >= 0 && Exec(c, Start, run).now == 0
    ensures NoPrune(unpruned) && Exec(c, Start, unpruned) == Exec(c, Start, run)
    ensures FromZero(Exec(c, Start, run))
    decreases |run|
  {
    if run == [] {
      return [];
    }
    var n := |run| - 1;
    var front, last := run[..n], run[n];
    assert run == front + [last];
    ExecAppend(c, Start, front, [last]);
    var t := Exec(c, Start, front);
    assert Exec(c, t, [last]) == Exec(c, Next(c, t, last), []) == Next(c, t, last);
    RunKeepsFromZero(c, Start, front);
    StepKeepsFromZero(c, t, last);
    unpruned := WithoutPrunes(c, front);
    if last.PruneProcessed? {
      assert Next(c, t, last).view.processed == t.view.processed;
    } else {
      ExecAppend(c, Start, unpruned, [last]);
      unpruned := unpruned + [last];
    }
  }

  lemma {:induction false} RunKeepsFromZero(c: Config, s: State, run: seq<Action>)
    requires FromZero(s)
    ensures FromZero(Exec(c, s, run)) && s.now <= Exec(c, s, run).now
    decreases run
  {
    if run != [] {
      StepKeepsFromZero(c, s, run[0]);
      RunKeepsFromZero(c, Next(c, s, run[0]), run[1..]);
    }
  }

  /** Over all unpruned runs the counters stay within the committed OrderCreated rows if and
      only if dead letters do not come back to the consumer. */
  lemma CountsAreBoundedUnlessLooping(c: Config)
    requires Startable(c)
    ensures (forall run, tenant :: NoPrune(run) ==>
               OrdersOf(Exec(c, Start, run).view, tenant) <= |CommittedEvents(Exec(c, Start, run), tenant)|)
            <==> !c.loops
  {
    if c.loops {
      var t := LoopAppliesTwice(c);
      var run :| Exec(c, Start, run) == t;
      var unpruned := WithoutPrunes(c, run);
      assert NoPrune(unpruned) && OrdersOf(Exec(c, Start, unpruned).view, "t") == 2;
    } else {
      forall run, tenant | NoPrune(run)
        ensures OrdersOf(Exec(c, Start, run).view, tenant) <= |CommittedEvents(Exec(c, Start, run), tenant)|
      {
        EffectivelyOnce(c, run, tenant);
      }
    }
  }
}
