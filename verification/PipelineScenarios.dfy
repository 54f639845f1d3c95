/** Small runs from an empty system with one event, one relay and one worker, to show that
    something can happen. */
module PipelineScenarios {
  import opened Results
  import opened MessageIds
  import opened Pipeline
  import opened PipelineSafety

  const Sample: Body := Body("t", true, Some("t"), 0)

  /** What config.Validate demands of the settings a broker is used with. */
  predicate Startable(c: Config) {
    && 0 < c.batch && 0 < c.window && 0 < c.maxAge && 0 < c.maxDeliver && 0 < c.ackWait
    && 0 < c.keepProcessed
  }

  lemma Waits(c: Config, s: State, t: State, n: nat)
    requires Reaches(c, s, t)
    ensures Reaches(c, s, t.(now := t.now + n))
    decreases n
  {
    if n > 0 {
      ReachesStep(c, s, t, Tick);
      Waits(c, s, Next(c, t, Tick), n - 1);
    } else {
      assert t.(now := t.now + 0) == t;
    }
  }

  // ---------- the relay ----------

  lemma OnlyRowIsClaimed(c: Config, s: State)
    requires c.batch > 0 && RelayOf(s.outbox, 0).Idle? && s.outbox.relays.Keys <= {0}
    requires s.outbox.rows.Keys == {1} && s.outbox.rows[1].Pending()
    ensures Next(c, s, RelayDoes(0, Claim)) ==
            s.(outbox := SetRelay(s.outbox, 0, Open([1], 0, false, s.now)))
  {
    assert Claimable(s.outbox) == {1};
    assert Least({1}) == 1;
    assert {1} - {1} == {};
    assert FirstIds({}, c.batch - 1) == [];
    assert FirstIds({1}, c.batch) == [1];
  }

  /** A publish of the only row that the broker stores, and whose marking is lost. */
  lemma OnlyRowIsStored(c: Config, s: State) returns (t: State)
    requires c.batch > 0 && RelayOf(s.outbox, 0).Idle? && s.outbox.relays.Keys <= {0}
    requires s.outbox.rows.Keys == {1} && s.outbox.rows[1] == Row(Sample, None, None)
    requires forall j :: 0 <= j < |s.stream| ==> s.now >= s.stream[j].storedAt + c.window
    requires Reaches(c, Start, s)
    ensures t == s.(outbox := SetRelay(s.outbox, 0, Idle), stream := s.stream + [Copy(Live(1), Sample, s.now)])
    ensures Reaches(c, Start, t)
  {
    OnlyRowIsClaimed(c, s);
    ReachesStep(c, Start, s, RelayDoes(0, Claim));
    t := Next(c, s, RelayDoes(0, Claim));
    ReachesStep(c, Start, t, RelayDoes(0, Publish(Stored)));
    t := Next(c, t, RelayDoes(0, Publish(Stored)));
    ReachesStep(c, Start, t, RelayDoes(0, Abandon));
    t := Next(c, t, RelayDoes(0, Abandon));
    assert t.outbox.relays == s.outbox.relays[0 := Idle];
  }

  // ---------- the worker ----------

  predicate OnlyWorker(s: State) {
    s.view.workers.Keys <= {0} && WorkerOf(s.view, 0).Free?
  }

  predicate CanTake(c: Config, s: State, i: nat) {
    && i < |s.stream| && Filtered(c, s.stream[i].id) && s.stream[i].body == Sample
    && s.now <= s.stream[i].storedAt + c.maxAge
    && ProgressOf(s.view, i).fate == Outstanding && ProgressOf(s.view, i).deliveries < c.maxDeliver
  }

  function JobOf(c: Config, s: State, i: nat): Job
    requires i < |s.stream|
  {
    Job(i, s.stream[i].id, Sample, ProgressOf(s.view, i).deliveries + 1, s.now + c.ackWait)
  }

  /** The state once worker 0 has been handed message i. */
  function Taken(c: Config, s: State, i: nat): State
    requires i < |s.stream|
  {
    var p := ProgressOf(s.view, i);
    s.(view := s.view.(workers := map[0 := Received(JobOf(c, s, i))],
                       progress := s.view.progress[i := p.(deliveries := p.deliveries + 1)]))
  }

  lemma OnlyWorkerTakes(c: Config, s: State, i: nat)
    requires OnlyWorker(s) && CanTake(c, s, i) && Reaches(c, Start, s)
    ensures Reaches(c, Start, Taken(c, s, i))
  {
    ReachesStep(c, Start, s, WorkerDoes(0, Deliver(i)));
    var t := Next(c, s, WorkerDoes(0, Deliver(i)));
    assert t.view.workers == map[0 := Received(JobOf(c, s, i))];
    assert t == Taken(c, s, i);
  }

  /** It begins its transaction. */
  lemma OnlyWorkerDecides(c: Config, s: State)
    requires s.view.workers.Keys == {0} && s.view.workers[0].Received? && s.view.workers[0].job.body == Sample
    requires Reaches(c, Start, s)
    ensures Reaches(c, Start, s.(view := SetWorker(s.view, 0, Begun(s.view.workers[0].job, s.now))))
  {
    assert EffectOf(Sample) == Apply("t");
    ReachesStep(c, Start, s, WorkerDoes(0, Decide));
  }

  /** A transaction that can still claim its message, up to its commit. */
  predicate CanApply(s: State) {
    && s.view.workers.Keys == {0} && s.view.workers[0].Begun?
    && var job := s.view.workers[0].job;
       job.body == Sample && s.now <= job.deadline && job.id !in s.view.processed
  }

  /** The state once it has committed, the result reported or not. */
  function Done(s: State, told: bool): State
    requires CanApply(s)
  {
    var at := s.view.workers[0];
    s.(view := s.view.(workers := map[0 := if told then Handled(at.job) else Failed(at.job, false)],
                       processed := s.view.processed[at.job.id := at.since],
                       counts := s.view.counts["t" := Bump(s.view.counts, "t", 0)],
                       applied := s.view.applied + [Applied(at.job.id, at.job.copy, "t", 0, at.since)]))
  }

  lemma OnlyWorkerApplies(c: Config, s: State, told: bool)
    requires CanApply(s) && Reaches(c, Start, s)
    ensures Reaches(c, Start, Done(s, told))
  {
    var t := OnlyWorkerCounts(c, s);
    assert EffectOf(Sample) == Apply("t");
    ReachesStep(c, Start, t, WorkerDoes(0, CommitEvent(told)));
    t := Next(c, t, WorkerDoes(0, CommitEvent(told)));
    assert t.view.workers == Done(s, told).view.workers;
    assert t == Done(s, told);
  }

  lemma OnlyWorkerCounts(c: Config, s: State) returns (t: State)
    requires CanApply(s) && Reaches(c, Start, s)
    ensures var at := s.view.workers[0];
            t == s.(view := SetWorker(s.view, 0, Counted(at.job, at.since, Bump(s.view.counts, "t", 0))))
    ensures Reaches(c, Start, t)
  {
    assert EffectOf(Sample) == Apply("t");
    var at := s.view.workers[0];
    ReachesStep(c, Start, s, WorkerDoes(0, ClaimEvent));
    t := Next(c, s, WorkerDoes(0, ClaimEvent));
    assert t.view == SetWorker(s.view, 0, Claimed(at.job, at.since));
    ReachesStep(c, Start, t, WorkerDoes(0, Count));
    t := Next(c, t, WorkerDoes(0, Count));
    assert t.view.workers == s.view.workers[0 := t.view.workers[0]];
  }

  /** The worker lets go of its message: an acknowledgement that is lost, or its death. */
  lemma OnlyWorkerStops(c: Config, s: State)
    requires s.view.workers.Keys == {0} && Reaches(c, Start, s)
    ensures Reaches(c, Start, s.(view := s.view.(workers := map[0 := Free])))
  {
    ReachesStep(c, Start, s, WorkerDoes(0, Die));
    assert Next(c, s, WorkerDoes(0, Die)).view.workers == map[0 := Free];
  }

  lemma DedupRowIsPruned(c: Config, s: State, id: Id)
    requires id in s.view.processed && s.view.processed[id] < s.now - c.keepProcessed && s.view.processed.Keys == {id}
    requires Reaches(c, Start, s)
    ensures Reaches(c, Start, s.(view := s.view.(processed := map[])))
  {
    ReachesStep(c, Start, s, PruneProcessed({id}));
    assert Next(c, s, PruneProcessed({id})).view.processed == map[];
  }

  // ---------- an event that is delivered in vain ----------

  /** A system in which row 1 is the only event, stored and delivered n times in vain. */
  function Tried(now: int, n: nat): State {
    State(now, Outbox(map[1 := Row(Sample, None, None)], map[1 := Sample], map[0 := Idle]), [Copy(Live(1), Sample, 0)],
          View(if n == 0 then map[] else map[0 := Free],
               if n == 0 then map[] else map[0 := Progress(n, Outstanding)], map[], map[], []))
  }

  lemma OnlyRowStored(c: Config)
    requires c.batch > 0
    ensures Reaches(c, Start, Tried(0, 0))
  {
    assert Exec(c, Start, []) == Start;
    ReachesStep(c, Start, Start, Insert(1, Sample));
    var s := Next(c, Start, Insert(1, Sample));
    s := OnlyRowIsStored(c, s);
    assert s == Tried(0, 0);
  }

  /** A delivery whose handler fails for now. */
  lemma FailsForNow(c: Config, n: nat) returns (s: State)
    requires n < c.maxDeliver && c.maxAge >= 0 && Reaches(c, Start, Tried(0, n))
    ensures Reaches(c, Start, s)
    ensures var job := Job(0, Live(1), Sample, n + 1, c.ackWait);
            s == Tried(0, n + 1).(view := Tried(0, n + 1).view.(workers := map[0 := Failed(job, false)]))
  {
    OnlyWorkerTakes(c, Tried(0, n), 0);
    s := Taken(c, Tried(0, n), 0);
    assert s.view.progress == map[0 := Progress(n + 1, Outstanding)];
    ReachesStep(c, Start, s, WorkerDoes(0, Fail));
    s := Next(c, s, WorkerDoes(0, Fail));
    assert s.view.workers == map[0 := Failed(Job(0, Live(1), Sample, n + 1, c.ackWait), false)];
  }

  lemma {:induction false} FailsRepeatedly(c: Config, n: nat)
    requires n < c.maxDeliver && c.batch > 0 && c.maxAge >= 0
    ensures Reaches(c, Start, Tried(0, n))
    decreases n
  {
    if n == 0 {
      OnlyRowStored(c);
    } else {
      FailsRepeatedly(c, n - 1);
      var s := FailsForNow(c, n - 1);
      ReachesStep(c, Start, s, WorkerDoes(0, Nak));
      assert Next(c, s, WorkerDoes(0, Nak)) == Tried(0, n);
    }
  }
}
