/** Publication order with a single relay. */
module PipelineOrder {
  import opened Results
  import opened MessageIds
  import opened Pipeline
  import opened PipelineSafety

  /** One relay, rows that become visible in id order, and no replay of quarantined rows. */
  predicate OrderedStep(s: State, a: Action, relay: nat) {
    match a
    case RelayDoes(r, _) => r == relay
    case Insert(id, _) => forall b :: b in s.outbox.born ==> b < id
    case Replay(_) => false
    case _ => true
  }

  predicate OrderedRun(c: Config, s: State, run: seq<Action>, relay: nat)
    decreases run
  {
    run != [] ==> OrderedStep(s, run[0], relay) && OrderedRun(c, Next(c, s, run[0]), run[1..], relay)
  }

  /** Copy i is the first of its row. */
  predicate IsFirst(stream: seq<Copy>, i: int) {
    0 <= i < |stream| && stream[i].id.Live? && !HasBefore(stream, i, stream[i].id)
  }

  predicate HasBefore(stream: seq<Copy>, i: int, id: Id)
    requires 0 <= i <= |stream|
  {
    exists j :: 0 <= j < i && stream[j].id == id
  }

  predicate SetAside(o: Outbox, id: int) {
    id in o.rows && o.rows[id].failedAt.Some?
  }

  /** First copies are in increasing id order. */
  predicate FirstsAscend(stream: seq<Copy>) {
    forall i, j :: 0 <= i < j < |stream| && IsFirst(stream, i) && IsFirst(stream, j) ==>
      stream[i].id.Row() < stream[j].id.Row()
  }

  /** A row below a stored one is itself stored before it, or quarantined. */
  predicate NoGap(o: Outbox, stream: seq<Copy>) {
    forall i, id :: 0 <= i < |stream| && id in o.born && IsFirst(stream, i) && id < stream[i].id.Row() ==>
      SetAside(o, id) || HasBefore(stream, i, Live(id))
  }

  predicate InOrder(o: Outbox, stream: seq<Copy>) {
    FirstsAscend(stream) && NoGap(o, stream)
  }

  /** Nothing pending is overtaken: below a stored row, or below a claimed one, every row is
      stored, quarantined, or claimed too. */
  predicate Settled(o: Outbox, stream: seq<Copy>, id: int) {
    SetAside(o, id) || Has(stream, Live(id))
  }

  predicate NothingOvertaken(o: Outbox, stream: seq<Copy>, relay: nat) {
    && o.relays.Keys <= {relay}
    && (forall id, j :: id in o.born && 0 <= j < |stream| && id < stream[j].id.Row() ==> Settled(o, stream, id))
    && (RelayOf(o, relay).Open? ==>
          forall id, k :: id in o.born && 0 <= k < |RelayOf(o, relay).batch| && id < RelayOf(o, relay).batch[k] ==>
            Settled(o, stream, id) || id in RelayOf(o, relay).batch)
  }

  predicate OrderInv(c: Config, s: State, relay: nat) {
    Inv(c, s) && InOrder(s.outbox, s.stream) && NothingOvertaken(s.outbox, s.stream, relay)
  }

  /** Steps that neither store a live copy nor bring back a quarantined row. */
  lemma OrderKept(o: Outbox, o': Outbox, stream: seq<Copy>)
    requires InOrder(o, stream)
    requires forall id, j :: id in o'.born && id !in o.born && 0 <= j < |stream| ==> stream[j].id.Row() < id
    requires forall id :: id in o.born && SetAside(o, id) ==> SetAside(o', id)
    ensures InOrder(o', stream)
  {
  }

  lemma FirstsAfterAppend(stream: seq<Copy>, copy: Copy)
    ensures var longer := stream + [copy];
            && (forall i, id :: 0 <= i <= |stream| ==> (HasBefore(longer, i, id) <==> HasBefore(stream, i, id)))
            && (forall i :: 0 <= i < |stream| ==> (IsFirst(longer, i) <==> IsFirst(stream, i)))
            && (IsFirst(longer, |stream|) <==> copy.id.Live? && !Has(stream, copy.id))
  {
    var longer := stream + [copy];
    forall i, id | 0 <= i <= |stream| ensures HasBefore(longer, i, id) <==> HasBefore(stream, i, id) {
      if HasBefore(longer, i, id) {
        var j :| 0 <= j < i && longer[j].id == id;
        assert stream[j].id == id;
      }
      if HasBefore(stream, i, id) {
        var j :| 0 <= j < i && stream[j].id == id;
        assert longer[j].id == id;
      }
    }
    assert Has(stream, copy.id) <==> HasBefore(stream, |stream|, copy.id);
  }

  /** A copy stored next keeps the order if it is not a first one, or if no row above it is
      stored and every row below it is accounted for. */
  lemma CopyKeepsOrder(o: Outbox, stream: seq<Copy>, copy: Copy)
    requires InOrder(o, stream)
    requires copy.id.Live? && !Has(stream, copy.id) ==>
               && (forall j :: 0 <= j < |stream| ==> stream[j].id.Row() < copy.id.Row())
               && (forall id :: id in o.born && id < copy.id.Row() ==> Settled(o, stream, id))
    ensures InOrder(o, stream + [copy])
  {
    FirstsAfterAppend(stream, copy);
    assert forall id :: Has(stream, id) <==> HasBefore(stream, |stream|, id);
  }

  /** A pending row that is not on the stream lies above everything that is. */
  lemma PendingIsNotBelow(o: Outbox, stream: seq<Copy>, relay: nat, id: int, j: int)
    requires NothingOvertaken(o, stream, relay) && 0 <= j < |stream|
    requires id in o.rows && id in o.born && o.rows[id].Pending() && !Has(stream, Live(id))
    requires stream[j].id.Dead? ==> Has(stream, Live(stream[j].id.Row()))
    ensures stream[j].id.Row() < id
  {
    assert Has(stream, stream[j].id);
  }

  /** Storing the next row of the open claim. */
  lemma NextCopyKeepsOrder(o: Outbox, stream: seq<Copy>, relay: nat, copy: Copy)
    requires InOrder(o, stream) && NothingOvertaken(o, stream, relay)
    requires var tx := RelayOf(o, relay);
             && tx.Open? && ClaimOk(o, stream, tx) && tx.acked < |tx.batch|
             && tx.batch[tx.acked] in o.born && copy.id == Live(tx.batch[tx.acked])
    requires forall j :: 0 <= j < |stream| && stream[j].id.Dead? ==> Has(stream, Live(stream[j].id.Row()))
    ensures InOrder(o, stream + [copy]) && NothingOvertaken(o, stream + [copy], relay)
  {
    var tx := RelayOf(o, relay);
    var id := tx.batch[tx.acked];
    forall x | x in o.born && x < id ensures Settled(o, stream, x) {
      if x in tx.batch {
        var m :| 0 <= m < |tx.batch| && tx.batch[m] == x;
        assert m < tx.acked;
      }
    }
    if !Has(stream, Live(id)) {
      forall j | 0 <= j < |stream| ensures stream[j].id.Row() < id {
        PendingIsNotBelow(o, stream, relay, id, j);
      }
    }
    CopyKeepsOrder(o, stream, copy);
    CopyOvertakesNothing(o, stream, relay, copy);
  }

  lemma CopyOvertakesNothing(o: Outbox, stream: seq<Copy>, relay: nat, copy: Copy)
    requires NothingOvertaken(o, stream, relay)
    requires forall id :: id in o.born && id < copy.id.Row() ==> Settled(o, stream, id)
    ensures NothingOvertaken(o, stream + [copy], relay)
  {
    HasGrows(stream, stream + [copy]);
    assert forall id :: Settled(o, stream, id) ==> Settled(o, stream + [copy], id);
  }

  /** The relay's own state matters only through the rows it has claimed. */
  lemma SetRelayKeepsOrder(o: Outbox, stream: seq<Copy>, relay: nat, to: Relay)
    requires InOrder(o, stream) && NothingOvertaken(o, stream, relay)
    requires to.Open? ==>
               forall id, k :: id in o.born && 0 <= k < |to.batch| && id < to.batch[k] ==>
                 Settled(o, stream, id) || id in to.batch
    ensures var o' := SetRelay(o, relay, to); InOrder(o', stream) && NothingOvertaken(o', stream, relay)
  {
    var o' := SetRelay(o, relay, to);
    OrderKept(o, o', stream);
    assert forall id :: Settled(o, stream, id) <==> Settled(o', stream, id);
  }

  lemma PublishKeepsOrder(c: Config, s: State, relay: nat, answer: Answer)
    requires OrderInv(c, s, relay)
    ensures var s' := Next(c, s, RelayDoes(relay, Publish(answer)));
            InOrder(s'.outbox, s'.stream) && NothingOvertaken(s'.outbox, s'.stream, relay)
  {
    var s' := Next(c, s, RelayDoes(relay, Publish(answer)));
    var tx := RelayOf(s.outbox, relay);
    if s' != s {
      var id := tx.batch[tx.acked];
      assert ClaimOk(s.outbox, s.stream, tx);
      assert RowOk(s.outbox, s.stream, id);
      if s'.stream != s.stream {
        assert s'.stream == s.stream + [s'.stream[|s.stream|]];
        NextCopyKeepsOrder(s.outbox, s.stream, relay, s'.stream[|s.stream|]);
      }
      SetRelayKeepsOrder(s.outbox, s'.stream, relay, s'.outbox.relays[relay]);
    }
  }

  lemma ClaimKeepsOrder(c: Config, s: State, relay: nat)
    requires OrderInv(c, s, relay)
    ensures var s' := Next(c, s, RelayDoes(relay, Claim));
            InOrder(s'.outbox, s'.stream) && NothingOvertaken(s'.outbox, s'.stream, relay)
  {
    var s' := Next(c, s, RelayDoes(relay, Claim));
    if s' != s {
      var batch := FirstIds(Claimable(s.outbox), c.batch);
      FirstIdsAreLeast(Claimable(s.outbox), c.batch);
      forall id, k | id in s.outbox.born && 0 <= k < |batch| && id < batch[k]
        ensures Settled(s.outbox, s.stream, id) || id in batch
      {
        PendingIsClaimable(s.outbox, s.stream, relay, id);
      }
      SetRelayKeepsOrder(s.outbox, s.stream, relay, Open(batch, 0, false, s.now));
    }
  }

  lemma PendingIsClaimable(o: Outbox, stream: seq<Copy>, relay: nat, id: int)
    requires OutboxOk(o, stream) && o.relays.Keys <= {relay} && RelayOf(o, relay).Idle? && id in o.born
    ensures Settled(o, stream, id) || id in Claimable(o)
  {
    if id in o.rows {
      assert RowOk(o, stream, id);
      assert !Locked(o, id);
    }
  }

  lemma RelayKeepsOrder(c: Config, s: State, relay: nat, step: RelayStep)
    requires OrderInv(c, s, relay)
    ensures OrderInv(c, Next(c, s, RelayDoes(relay, step)), relay)
  {
    StepKeepsInv(c, s, RelayDoes(relay, step));
    match step
    case Publish(answer) => PublishKeepsOrder(c, s, relay, answer);
    case Claim => ClaimKeepsOrder(c, s, relay);
    case _ => RestKeepsOrder(c, s, relay, step);
  }

  lemma RestKeepsOrder(c: Config, s: State, relay: nat, step: RelayStep)
    requires InOrder(s.outbox, s.stream) && NothingOvertaken(s.outbox, s.stream, relay)
    requires !step.Publish? && !step.Claim?
    ensures var s' := Next(c, s, RelayDoes(relay, step));
            InOrder(s'.outbox, s'.stream) && NothingOvertaken(s'.outbox, s'.stream, relay)
  {
    var s' := Next(c, s, RelayDoes(relay, step));
    NoRelease(c, s, relay, step);
    OrderKept(s.outbox, s'.outbox, s.stream);
    assert forall id :: Settled(s.outbox, s.stream, id) ==> Settled(s'.outbox, s.stream, id);
  }

  lemma NoRelease(c: Config, s: State, relay: nat, step: RelayStep)
    requires !step.Publish? && !step.Claim?
    ensures var s' := Next(c, s, RelayDoes(relay, step));
            && (forall id :: SetAside(s.outbox, id) ==> SetAside(s'.outbox, id))
            && s'.outbox.born == s.outbox.born && s'.stream == s.stream
  {
  }

  lemma OthersKeepOrder(c: Config, s: State, a: Action, relay: nat)
    requires OrderInv(c, s, relay) && OrderedStep(s, a, relay) && !a.RelayDoes?
    ensures OrderInv(c, Next(c, s, a), relay)
  {
    var s' := Next(c, s, a);
    StepKeepsInv(c, s, a);
    HasGrows(s.stream, s'.stream);
    if a.WorkerDoes? {
      WorkerKeepsOrder(c, s, a.w, a.workerStep, relay);
    } else {
      TableStepKeepsOrder(c, s, a, relay);
    }
  }

  /** Workers store nothing but dead letters, of rows that are stored already. */
  lemma WorkerKeepsOrder(c: Config, s: State, w: nat, step: WorkerStep, relay: nat)
    requires OrderInv(c, s, relay)
    ensures var s' := Next(c, s, WorkerDoes(w, step));
            InOrder(s'.outbox, s'.stream) && NothingOvertaken(s'.outbox, s'.stream, relay)
  {
    var s' := Next(c, s, WorkerDoes(w, step));
    WorkersStoreDeadLetters(c, s.view, s.stream, s.now, w, step);
    if s'.stream != s.stream {
      WorkerOkOf(c, s.outbox.born, s.stream, s.now, s.view, w);
      var copy := s'.stream[|s.stream|];
      assert Has(s.stream, Live(s.stream[WorkerOf(s.view, w).job.copy].id.Row()));
      CopyKeepsOrder(s.outbox, s.stream, copy);
      CopyOfStoredOvertakesNothing(s.outbox, s.stream, copy, relay);
    }
  }

  lemma WorkersStoreDeadLetters(c: Config, v: View, stream: seq<Copy>, now: int, w: nat, step: WorkerStep)
    ensures var longer := WorkerNext(c, v, stream, now, w, step).1;
            || longer == stream
            || (&& longer == stream + [longer[|stream|]]
                && !WorkerOf(v, w).Free? && longer[|stream|].id == Dead(WorkerOf(v, w).job.id))
  {
  }

  lemma CopyOfStoredOvertakesNothing(o: Outbox, stream: seq<Copy>, copy: Copy, relay: nat)
    requires NothingOvertaken(o, stream, relay) && Has(stream, Live(copy.id.Row()))
    ensures NothingOvertaken(o, stream + [copy], relay)
  {
    var m :| 0 <= m < |stream| && stream[m].id == Live(copy.id.Row());
    assert forall id :: id in o.born && id < stream[m].id.Row() ==> Settled(o, stream, id);
    CopyOvertakesNothing(o, stream, relay, copy);
  }

  lemma TableStepKeepsOrder(c: Config, s: State, a: Action, relay: nat)
    requires OrderInv(c, s, relay) && OrderedStep(s, a, relay) && !a.RelayDoes? && !a.WorkerDoes?
    ensures var s' := Next(c, s, a);
            InOrder(s'.outbox, s'.stream) && NothingOvertaken(s'.outbox, s'.stream, relay)
  {
    var s' := Next(c, s, a);
    TableStepFacts(c, s, a, relay);
    OrderKept(s.outbox, s'.outbox, s.stream);
    TableStepOvertakesNothing(s.outbox, s'.outbox, s.stream, relay);
  }

  /** Nothing set aside comes back, and new rows lie above everything stored or claimed. */
  lemma TableStepFacts(c: Config, s: State, a: Action, relay: nat)
    requires OrderInv(c, s, relay) && OrderedStep(s, a, relay) && !a.RelayDoes? && !a.WorkerDoes?
    ensures var s', tx := Next(c, s, a), RelayOf(s.outbox, relay);
            && s'.stream == s.stream && s'.outbox.relays == s.outbox.relays
            && (forall id :: SetAside(s.outbox, id) ==> SetAside(s'.outbox, id))
            && (forall id, j :: id in s'.outbox.born && id !in s.outbox.born && 0 <= j < |s.stream| ==>
                  s.stream[j].id.Row() < id)
            && (tx.Open? ==> forall id, k ::
                  id in s'.outbox.born && id !in s.outbox.born && 0 <= k < |tx.batch| ==> tx.batch[k] < id)
  {
    var s', tx := Next(c, s, a), RelayOf(s.outbox, relay);
    forall id | SetAside(s.outbox, id) ensures SetAside(s'.outbox, id) {
      assert RowOk(s.outbox, s.stream, id);
    }
    forall j | 0 <= j < |s.stream| ensures s.stream[j].id.Row() in s.outbox.born {
    }
    if tx.Open? {
      assert ClaimOk(s.outbox, s.stream, tx);
      forall k | 0 <= k < |tx.batch| ensures tx.batch[k] in s.outbox.born {
        assert RowOk(s.outbox, s.stream, tx.batch[k]);
      }
    }
  }

  lemma TableStepOvertakesNothing(o: Outbox, o': Outbox, stream: seq<Copy>, relay: nat)
    requires NothingOvertaken(o, stream, relay) && o'.relays == o.relays
    requires forall id :: SetAside(o, id) ==> SetAside(o', id)
    requires forall id, j :: id in o'.born && id !in o.born && 0 <= j < |stream| ==> stream[j].id.Row() < id
    requires var tx := RelayOf(o, relay);
             tx.Open? ==> forall id, k ::
               id in o'.born && id !in o.born && 0 <= k < |tx.batch| ==> tx.batch[k] < id
    ensures NothingOvertaken(o', stream, relay)
  {
    assert forall id :: Settled(o, stream, id) ==> Settled(o', stream, id);
  }

  lemma {:induction false} RunKeepsOrder(c: Config, s: State, run: seq<Action>, relay: nat)
    requires OrderInv(c, s, relay) && OrderedRun(c, s, run, relay)
    ensures OrderInv(c, Exec(c, s, run), relay)
    decreases run
  {
    if run != [] {
      if run[0].RelayDoes? {
        RelayKeepsOrder(c, s, relay, run[0].relayStep);
      } else {
        OthersKeepOrder(c, s, run[0], relay);
      }
      RunKeepsOrder(c, Next(c, s, run[0]), run[1..], relay);
    }
  }

  /** With one relay, rows visible in id order and no quarantine replay, the first-stored
      copies are in increasing id order with no gap except quarantined rows, through any
      transient failure, lost acknowledgement, failed commit or crash. */
  lemma SingleRelayOrder(c: Config, run: seq<Action>, relay: nat)
    requires OrderedRun(c, Start, run, relay)
    ensures InOrder(Exec(c, Start, run).outbox, Exec(c, Start, run).stream)
  {
    RunKeepsOrder(c, Start, run, relay);
  }
}
