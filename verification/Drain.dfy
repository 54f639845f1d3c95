/** The relay's and the consumer's own code, run against the step system: DrainOnce and the
    draining loop of relay.go, dispatch and deadLetter of consumer.go with the projection's
    Handle inside. Between any two statements the others do as they please. */
module Drain {
  import opened GoInts
  import opened Results
  import opened MessageIds
  import opened Pipeline
  import opened PipelineSteps
  import opened PipelineSafety
  import opened PipelineTheorems
  import opened Sets

  /** What DrainOnce does not control: the broker's answer for each row, what everybody else
      does before its k-th statement, and whether its own statements fail. */
  datatype Circumstances = Circumstances(
    answer: int -> Answer, others: nat -> seq<Action>, markFails: bool, commit: CommitResult, quarantineFails: bool)

  datatype CommitResult = Committed | Unreported | NotCommitted

  datatype DrainError =
    | PublishFailed(id: int) | Quarantined(id: int) | NotQuarantined(id: int) | MarkFailed | CommitFailed

  /** Nobody else acts, and nothing fails but rows that can never be published. */
  ghost predicate Calm(x: Circumstances) {
    && (forall k: nat :: x.others(k) == [])
    && !x.markFails && x.commit == Committed && !x.quarantineFails
    && (forall id :: x.answer(id) == Stored || x.answer(id) == Impossible)
  }

  /** What the consumer's code does not control in one dispatch. */
  datatype Chances = Chances(
    others: nat -> seq<Action>, fails: nat -> bool, told: bool, ackArrives: bool, dlq: Answer, termArrives: bool)

  datatype Ending = NotDelivered | AckSent | DeadLettered | LeftForRetry | NotCopied

  predicate NoClaims(o: Outbox) {
    forall r :: r in o.relays ==> !o.relays[r].Open?
  }

  /** The first row of a batch that cannot be published. */
  function FirstBad(batch: seq<int>, answer: int -> Answer): Option<int> {
    if batch == [] then None
    else if answer(batch[0]) == Impossible then Some(batch[0])
    else FirstBad(batch[1..], answer)
  }

  /** What a calm drain makes of the rows once it has opened a claim: the whole batch published,
      or only its first bad row set aside. */
  function AfterClaim(rows: map<int, Row>, tx: Relay, now: int, answer: int -> Answer): map<int, Row>
    requires tx.Open?
  {
    match FirstBad(tx.batch, answer)
    case None => Stamp(rows, tx.batch, tx.since)
    case Some(id) => if id in rows then rows[id := rows[id].(failedAt := Some(now))] else rows
  }

  /** The table after a calm drain. */
  function AfterCalmDrain(c: Config, s: State, answer: int -> Answer): map<int, Row> {
    AfterClaim(s.outbox.rows, Open(FirstIds(Claimable(s.outbox), c.batch), 0, false, s.now), s.now, answer)
  }

  /** The table after a calm drain, row by row: all of the claim is marked as of now, or, if
      some of it can never be published, the first such row is set aside and nothing else is
      different. */
  predicate DrainedCalmly(s: State, rows': map<int, Row>, batch: seq<int>, answer: int -> Answer) {
    if forall k :: 0 <= k < |batch| ==> answer(batch[k]) != Impossible then
      Marks(s.outbox.rows, rows', batch, s.now)
    else
      exists k :: 0 <= k < |batch| && answer(batch[k]) == Impossible
                  && (forall j :: 0 <= j < k ==> answer(batch[j]) != Impossible)
                  && SetsAside(s.outbox.rows, rows', batch[k], s.now)
  }

  lemma {:induction false} FirstBadIsFirst(batch: seq<int>, answer: int -> Answer) returns (k: nat)
    ensures match FirstBad(batch, answer)
            case None => forall j :: 0 <= j < |batch| ==> answer(batch[j]) != Impossible
            case Some(id) =>
              && k < |batch| && batch[k] == id && answer(id) == Impossible
              && forall j :: 0 <= j < k ==> answer(batch[j]) != Impossible
  {
    k := 0;
    if batch != [] && answer(batch[0]) != Impossible {
      var rest := FirstBadIsFirst(batch[1..], answer);
      k := rest + 1;
      assert forall j :: 0 < j < |batch| ==> batch[j] == batch[1..][j - 1];
    }
  }

  lemma AfterCalmDrainMeans(c: Config, s: State, answer: int -> Answer)
    ensures DrainedCalmly(s, AfterCalmDrain(c, s, answer), FirstIds(Claimable(s.outbox), c.batch), answer)
  {
    var batch := FirstIds(Claimable(s.outbox), c.batch);
    FirstIdsAreLeast(Claimable(s.outbox), c.batch);
    var k := FirstBadIsFirst(batch, answer);
    StampMarks(s.outbox.rows, batch, s.now);
    if FirstBad(batch, answer).Some? {
      assert batch[k] in Claimable(s.outbox);
      assert SetsAside(s.outbox.rows, AfterCalmDrain(c, s, answer), batch[k], s.now);
    }
  }

  // ---------- facts about single steps ----------

  lemma ReachableIsInv(c: Config, s: State)
    requires Reaches(c, Start, s)
    ensures Inv(c, s)
  {
    var run :| Exec(c, Start, run) == s;
    EveryRunKeepsInv(c, Start, run);
  }

  lemma ReachesItself(c: Config, s: State)
    ensures Reaches(c, s, s)
  {
    assert Exec(c, s, []) == s;
  }

  lemma ReachesOn(c: Config, s: State, t: State, u: State)
    requires Reaches(c, s, t) && Reaches(c, t, u)
    ensures Reaches(c, s, u)
  {
    var a :| Exec(c, s, a) == t;
    var b :| Exec(c, t, b) == u;
    ExecAppend(c, s, a, b);
  }

  /** A step by anybody else leaves relay r, respectively worker w, where it was. */
  lemma OthersLeaveRelay(c: Config, s: State, a: Action, r: nat)
    requires !(a.RelayDoes? && a.r == r)
    ensures RelayOf(Next(c, s, a).outbox, r) == RelayOf(s.outbox, r)
  {
  }

  lemma OthersLeaveWorker(c: Config, s: State, a: Action, w: nat)
    requires !(a.WorkerDoes? && a.w == w)
    ensures WorkerOf(Next(c, s, a).view, w) == WorkerOf(s.view, w)
  {
    if a.WorkerDoes? {
      WorkersMoveAlone(c, s.view, s.stream, s.now, a.w, a.workerStep, w);
    }
  }

  lemma ClaimOpens(c: Config, s: State, r: nat)
    requires RelayOf(s.outbox, r).Idle?
    ensures var batch, s' := FirstIds(Claimable(s.outbox), c.batch), Next(c, s, RelayDoes(r, Claim));
            && |batch| <= c.batch && Ascending(batch)
            && (if batch == [] then s' == s
                else s' == s.(outbox := SetRelay(s.outbox, r, Open(batch, 0, false, s.now))))
  {
    FirstIdsAreLeast(Claimable(s.outbox), c.batch);
  }

  lemma ClaimHolds(c: Config, s: State, r: nat, k: int)
    requires Reaches(c, Start, s) && RelayOf(s.outbox, r).Open? && 0 <= k < |RelayOf(s.outbox, r).batch|
    ensures var tx := RelayOf(s.outbox, r);
            && tx.batch[k] in s.outbox.rows && s.outbox.rows[tx.batch[k]].Pending()
            && tx.acked <= |tx.batch|
            && (k < tx.acked ==> Has(s.stream, Live(tx.batch[k])))
  {
    ReachableIsInv(c, s);
    assert ClaimOk(s.outbox, s.stream, RelayOf(s.outbox, r));
  }

  lemma PublishOutcome(c: Config, s: State, r: nat, answer: Answer)
    requires Reaches(c, Start, s) && RelayOf(s.outbox, r).Open?
    requires RelayOf(s.outbox, r).acked < |RelayOf(s.outbox, r).batch|
    requires RelayOf(s.outbox, r).batch[RelayOf(s.outbox, r).acked] in s.outbox.rows
    ensures var tx, s' := RelayOf(s.outbox, r), Next(c, s, RelayDoes(r, Publish(answer)));
            && OnlyRelayChanged(s, s', r)
            && s'.stream == (if answer == Stored || answer == Unacked then
                               Store(c, s.stream, Live(tx.batch[tx.acked]),
                                     s.outbox.rows[tx.batch[tx.acked]].body, s.now)
                             else s.stream)
            && RelayOf(s'.outbox, r) ==
               match answer
               case Stored => tx.(acked := tx.acked + 1)
               case Impossible => Rejected(tx.batch[tx.acked])
               case _ => Idle
  {
    ClaimHolds(c, s, r, RelayOf(s.outbox, r).acked);
  }

  lemma QuarantineOutcome(c: Config, s: State, r: nat)
    requires Reaches(c, Start, s) && RelayOf(s.outbox, r).Rejected?
    requires !Locked(s.outbox, RelayOf(s.outbox, r).row)
    ensures var id, s' := RelayOf(s.outbox, r).row, Next(c, s, RelayDoes(r, Quarantine));
            && RelayOf(s'.outbox, r).Idle? && s'.now == s.now
            && !(id in s'.outbox.rows && s'.outbox.rows[id].Pending())
            && (id in s.outbox.rows && s.outbox.rows[id].Pending() ==>
                  s'.outbox.rows == s.outbox.rows[id := s.outbox.rows[id].(failedAt := Some(s.now))])
            && forall q :: q in s'.outbox.relays && q != r ==>
                 q in s.outbox.relays && s'.outbox.relays[q] == s.outbox.relays[q]
  {
  }

  lemma CommitOutcome(c: Config, s: State, r: nat)
    requires Reaches(c, Start, s) && RelayOf(s.outbox, r).Open? && RelayOf(s.outbox, r).marked
    ensures var tx, s' := RelayOf(s.outbox, r), Next(c, s, RelayDoes(r, Commit));
            && RelayOf(s'.outbox, r).Idle? && s'.now == s.now
            && s'.outbox.rows == Stamp(s.outbox.rows, tx.batch, tx.since)
            && Marks(s.outbox.rows, s'.outbox.rows, tx.batch, tx.since)
            && IsPublished(s', tx.batch, tx.since)
            && forall q :: q in s'.outbox.relays && q != r ==>
                 q in s.outbox.relays && s'.outbox.relays[q] == s.outbox.relays[q]
  {
    ReachableIsInv(c, s);
    var tx := RelayOf(s.outbox, r);
    assert ClaimOk(s.outbox, s.stream, tx);
    StampMarks(s.outbox.rows, tx.batch, tx.since);
  }

  /** Every row of the batch is marked as of that instant and on the stream. */
  predicate IsPublished(s: State, batch: seq<int>, at: int) {
    forall k :: 0 <= k < |batch| ==>
      && batch[k] in s.outbox.rows
      && s.outbox.rows[batch[k]].publishedAt == Some(at) && s.outbox.rows[batch[k]].failedAt == None
      && Has(s.stream, Live(batch[k]))
  }

  /** On the way from one state to another one statement marked exactly the batch. */
  ghost predicate MarkedBetween(c: Config, from: State, s: State, batch: seq<int>, at: int) {
    exists before :: Reaches(c, from, before) && Reaches(c, before, s)
                     && Marks(before.outbox.rows, s.outbox.rows, batch, at)
  }

  /** Relay r claimed in the state mid: the n rows of its claim, the first that could be
      claimed then, are marked as of that instant and on the stream in s, which its claim leads
      to, and the marking touched no other row. */
  ghost predicate PublishedClaim(c: Config, r: nat, mid: State, s: State, n: nat) {
    var batch, claimed := FirstIds(Claimable(mid.outbox), c.batch), Next(c, mid, RelayDoes(r, Claim));
    && RelayOf(mid.outbox, r).Idle? && Reaches(c, claimed, s)
    && RelayOf(claimed.outbox, r) == (if batch == [] then Idle else Open(batch, 0, false, mid.now))
    && |batch| == n && IsPublished(s, batch, mid.now) && MarkedBetween(c, claimed, s, batch, mid.now)
  }

  lemma EmptyClaim(c: Config, r: nat, s: State)
    requires RelayOf(s.outbox, r).Idle? && FirstIds(Claimable(s.outbox), c.batch) == []
    ensures PublishedClaim(c, r, s, s, 0)
  {
    ReachesItself(c, s);
    assert Marks(s.outbox.rows, s.outbox.rows, [], s.now);
    assert MarkedBetween(c, s, s, [], s.now);
  }

  lemma ClaimIsPublished(c: Config, r: nat, mid: State, s: State, n: nat)
    requires RelayOf(mid.outbox, r).Idle?
    requires var claimed := Next(c, mid, RelayDoes(r, Claim));
             var tx := RelayOf(claimed.outbox, r);
             && tx == Open(FirstIds(Claimable(mid.outbox), c.batch), 0, false, mid.now) && n == |tx.batch| > 0
             && Reaches(c, claimed, s)
             && IsPublished(s, tx.batch, tx.since) && MarkedBetween(c, claimed, s, tx.batch, tx.since)
    ensures PublishedClaim(c, r, mid, s, n)
  {
  }

  lemma MarkedEarlier(c: Config, from: State, later: State, s: State, batch: seq<int>, at: int)
    requires Reaches(c, from, later) && MarkedBetween(c, later, s, batch, at)
    ensures MarkedBetween(c, from, s, batch, at)
  {
    var before :| Reaches(c, later, before) && Reaches(c, before, s)
                  && Marks(before.outbox.rows, s.outbox.rows, batch, at);
    ReachesOn(c, from, later, before);
  }

  /** Only relay r's own record and the stream have changed. */
  predicate OnlyRelayChanged(s: State, t: State, r: nat) {
    && t.outbox.rows == s.outbox.rows && t.now == s.now
    && forall q :: q in t.outbox.relays && q != r ==> q in s.outbox.relays && t.outbox.relays[q] == s.outbox.relays[q]
  }

  predicate NoOtherClaims(o: Outbox, r: nat) {
    forall q :: q in o.relays && q != r ==> !o.relays[q].Open?
  }

  lemma DeliverOutcome(c: Config, s: State, w: nat, i: nat)
    requires Reaches(c, Start, s) && WorkerOf(s.view, w).Free?
    ensures var s', p := Next(c, s, WorkerDoes(w, Deliver(i))), ProgressOf(s.view, i);
            if Deliverable(c, s, i) then
              var job := Job(i, s.stream[i].id, s.stream[i].body, p.deliveries + 1, s.now + c.ackWait);
              && WorkerOf(s'.view, w) == Received(job) && Quietly(s, s', w)
              && ProgressOf(s'.view, i) == Progress(p.deliveries + 1, Outstanding)
              && SameTables(s.view, s'.view)
            else s' == s
  {
  }

  predicate Deliverable(c: Config, s: State, i: nat) {
    && i < |s.stream| && Filtered(c, s.stream[i].id) && s.now <= s.stream[i].storedAt + c.maxAge
    && ProgressOf(s.view, i).fate == Outstanding && ProgressOf(s.view, i).deliveries < c.maxDeliver
  }

  predicate SameTables(v: View, v': View) {
    v'.processed == v.processed && v'.counts == v.counts && v'.applied == v.applied
  }

  /** Nothing moved but worker w and the tables and records it is responsible for. */
  predicate Quietly(s: State, t: State, w: nat) {
    && t.now == s.now && s.stream <= t.stream && t.outbox == s.outbox
    && forall u :: u in t.view.workers && u != w ==> u in s.view.workers && t.view.workers[u] == s.view.workers[u]
  }

  /** One statement of the handler, on a worker that is inside it. */
  lemma HandlerOutcome(c: Config, s: State, w: nat, step: WorkerStep)
    requires Reaches(c, Start, s)
    requires step.Decide? || step.ClaimEvent? || step.Count? || step.CommitEvent? || step.Fail?
    ensures var s' := Next(c, s, WorkerDoes(w, step));
            var at, at' := WorkerOf(s.view, w), WorkerOf(s'.view, w);
            && Quietly(s, s', w) && s'.view.progress == s.view.progress
            && (!at.Free? ==> !at'.Free? && at'.job == at.job)
            && (!step.CommitEvent? ==> SameTables(s.view, s'.view))
            && (step.Decide? && at.Received? ==>
                  at' == match EffectOf(at.job.body)
                         case Ignore => Handled(at.job)
                         case Refuse => Failed(at.job, true)
                         case Apply(_) => Begun(at.job, s.now))
            && (step.Fail? && (at.Begun? || at.Claimed? || at.Counted?) ==> at' == Failed(at.job, false))
            && (step.ClaimEvent? && at.Begun? && s.now <= at.job.deadline && !EventHeld(s.view, at.job.id) ==>
                  at' == if at.job.id in s.view.processed then Handled(at.job) else Claimed(at.job, at.since))
            && (step.Count? && at.Claimed? && s.now <= at.job.deadline && !TenantHeld(s.view, EffectOf(at.job.body)) ==>
                  EffectOf(at.job.body).Apply? &&
                  at' == Counted(at.job, at.since,
                                 Bump(s.view.counts, EffectOf(at.job.body).tenant, at.job.body.occurredAt)))
  {
    ReachableIsInv(c, s);
    WorkerOkOf(c, s.outbox.born, s.stream, s.now, s.view, w);
  }

  lemma CommitEventOutcome(c: Config, s: State, w: nat, told: bool)
    requires Reaches(c, Start, s) && WorkerOf(s.view, w).Counted? && s.now <= WorkerOf(s.view, w).job.deadline
    ensures var s', at := Next(c, s, WorkerDoes(w, CommitEvent(told))), WorkerOf(s.view, w);
            && WorkerOf(s'.view, w) == (if told then Handled(at.job) else Failed(at.job, false))
            && EffectOf(at.job.body).Apply?
            && AppliesOnce(s.view, s'.view, at.job, EffectOf(at.job.body).tenant, at.since)
  {
    ReachableIsInv(c, s);
    WorkerOkOf(c, s.outbox.born, s.stream, s.now, s.view, w);
    var s' := Next(c, s, WorkerDoes(w, CommitEvent(told)));
    BumpRaises(s.view.counts, EffectOf(WorkerOf(s.view, w).job.body).tenant, WorkerOf(s.view, w).job.body.occurredAt);
    assert s'.view.applied[|s.view.applied|].id == WorkerOf(s.view, w).job.id;
  }

  /** The dedup row and the counter, written together. */
  predicate AppliesOnce(v: View, v': View, job: Job, tenant: string, since: int) {
    && job.id !in v.processed && v'.processed == v.processed[job.id := since]
    && Raises(v.counts, v'.counts, tenant, job.body.occurredAt)
    && v'.applied == v.applied + [Applied(job.id, job.copy, tenant, job.body.occurredAt, since)]
    && WasApplied(v', job.id)
  }

  /** How a delivery may end: acknowledged only if it is of no interest or applied, and never if it
      is unusable; dead-lettered only with the copy stored; left for another attempt only while
      there is one; not copied only on the last attempt, or for good, and by the broker's fault. */
  predicate Ends(c: Config, job: Job, dlq: Answer, s: State, end: Ending) {
    && (end.AckSent? ==> !job.body.created || WasApplied(s.view, job.id))
    && (Unusable(job.body) ==> end.DeadLettered? || end.NotCopied?)
    && (end.DeadLettered? ==> Has(s.stream, Dead(job.id)))
    && (end.LeftForRetry? ==> job.attempt < c.maxDeliver)
    && (end.NotCopied? ==> dlq != Stored && (job.attempt >= c.maxDeliver || Unusable(job.body)))
    && !end.NotDelivered?
  }

  lemma DeliveredIsOnStream(c: Config, s: State, w: nat)
    requires Reaches(c, Start, s) && WorkerOf(s.view, w).Received?
    ensures var job := WorkerOf(s.view, w).job;
            job.copy < |s.stream| && s.stream[job.copy].id == job.id && s.stream[job.copy].body == job.body
            && Filtered(c, job.id)
  {
    ReachableIsInv(c, s);
    WorkerOkOf(c, s.outbox.born, s.stream, s.now, s.view, w);
  }

  /** The tables after an undisturbed handler: an event that counts for a tenant and was not
      processed before is counted for it; any other leaves them alone. */
  ghost predicate HandledOnce(v: View, v': View, job: Job, since: int) {
    && (forall tenant :: CountsFor(job.body, tenant) && job.id !in v.processed ==>
          AppliesOnce(v, v', job, tenant, since))
    && ((forall tenant :: !CountsFor(job.body, tenant)) || job.id in v.processed ==> SameTables(v, v'))
  }

  lemma {:induction false} RunKeepsApplied(c: Config, s: State, run: seq<Action>)
    ensures forall id :: WasApplied(s.view, id) ==> WasApplied(Exec(c, s, run).view, id)
    decreases run
  {
    if run != [] {
      StepKeepsApplied(c, s, run[0]);
      RunKeepsApplied(c, Next(c, s, run[0]), run[1..]);
    }
  }

  lemma StepKeepsApplied(c: Config, s: State, a: Action)
    ensures forall id :: WasApplied(s.view, id) ==> WasApplied(Next(c, s, a).view, id)
  {
    if a.WorkerDoes? {
      AppliedGrows(c, s.view, s.stream, s.now, a.w, a.workerStep);
    } else {
      AppliedStays(s.view, Next(c, s, a).view);
    }
  }

  lemma HandledIsJustified(c: Config, s: State, w: nat)
    requires Reaches(c, Start, s)
    ensures var at := WorkerOf(s.view, w);
            && (at.Handled? ==> !at.job.body.created || WasApplied(s.view, at.job.id))
            && (at.Copied? ==> Has(s.stream, Dead(at.job.id)))
  {
    if !WorkerOf(s.view, w).Free? {
      WhatEventsAre(WorkerOf(s.view, w).job.body);
    }
    ReachableIsInv(c, s);
    WorkerOkOf(c, s.outbox.born, s.stream, s.now, s.view, w);
  }

  lemma DeadLetterOutcome(c: Config, s: State, w: nat, answer: Answer)
    requires Reaches(c, Start, s) && WorkerOf(s.view, w).Failed?
    requires WorkerOf(s.view, w).permanent || WorkerOf(s.view, w).job.attempt >= c.maxDeliver
    ensures var s', at := Next(c, s, WorkerDoes(w, DeadLetter(answer))), WorkerOf(s.view, w);
            && WorkerOf(s'.view, w) == (if answer == Stored then Copied(at.job) else Free)
            && (answer == Stored ==> Has(s'.stream, Dead(at.job.id)))
            && s'.view.progress == s.view.progress && SameTables(s.view, s'.view)
  {
    var at := WorkerOf(s.view, w);
    StoreIsStored(c, s.stream, Dead(at.job.id), at.job.body, s.now);
  }

  /** Nobody else acts and nothing fails. */
  ghost predicate Undisturbed(x: Chances) {
    && (forall k: nat :: x.others(k) == [] && !x.fails(k))
    && x.told && x.ackArrives && x.dlq == Stored && x.termArrives
  }

  predicate OthersFree(v: View, w: nat) {
    forall u :: u in v.workers && u != w ==> v.workers[u].Free?
  }

  // ---------- draining to the end ----------

  predicate Bad(answer: int -> Answer, id: int) {
    answer(id) == Impossible
  }

  function BadOnes(ids: set<int>, answer: int -> Answer): set<int> {
    set id | id in ids && Bad(answer, id)
  }

  /** One drain for each row that cannot be published, and one for each full or last batch
      of the others. */
  function DrainsNeeded(ids: set<int>, answer: int -> Answer, batch: nat): int
    requires batch > 0
  {
    |BadOnes(ids, answer)| + CeilDiv(|ids - BadOnes(ids, answer)|, batch)
  }

  function PendingOf(rows: map<int, Row>): set<int> {
    set id | id in rows && rows[id].Pending()
  }

  lemma {:induction false} FirstBadIsBad(batch: seq<int>, answer: int -> Answer)
    ensures match FirstBad(batch, answer)
            case None => forall id :: id in batch ==> !Bad(answer, id)
            case Some(id) => id in batch && Bad(answer, id)
  {
    if batch != [] {
      FirstBadIsBad(batch[1..], answer);
    }
  }

  /** rows' is rows with the pending rows `gone` disposed of and nothing else touched. */
  predicate DisposesOf(rows: map<int, Row>, rows': map<int, Row>, answer: int -> Answer, gone: set<int>) {
    && rows'.Keys == rows.Keys && gone <= PendingOf(rows)
    && PendingOf(rows') == PendingOf(rows) - gone
    && (forall id :: id in rows && id !in gone ==> rows'[id] == rows[id])
    && (forall id :: id in gone ==> Disposed(rows', answer, id))
  }

  lemma StampDisposes(rows: map<int, Row>, batch: seq<int>, at: int, answer: int -> Answer)
    requires forall id :: id in batch ==> id in PendingOf(rows) && !Bad(answer, id)
    ensures DisposesOf(rows, Stamp(rows, batch, at), answer, Elements(batch))
  {
    var rows' := Stamp(rows, batch, at);
    assert rows'.Keys == rows.Keys;
    forall id | id in Elements(batch) ensures id in PendingOf(rows) {
      assert id in batch;
    }
    forall id | id in rows ensures id in PendingOf(rows') <==> id in PendingOf(rows) && id !in Elements(batch) {
    }
    assert PendingOf(rows') == PendingOf(rows) - Elements(batch);
  }

  lemma SettingAsideDisposes(rows: map<int, Row>, bad: int, at: int, answer: int -> Answer)
    requires bad in PendingOf(rows) && Bad(answer, bad)
    ensures DisposesOf(rows, rows[bad := rows[bad].(failedAt := Some(at))], answer, {bad})
  {
    var rows' := rows[bad := rows[bad].(failedAt := Some(at))];
    assert rows'.Keys == rows.Keys;
    assert PendingOf(rows') == PendingOf(rows) - {bad};
    assert forall id :: id in rows && id !in {bad} ==> rows'[id] == rows[id];
    assert Disposed(rows', answer, bad);
  }

  lemma DisposesOn(rows: map<int, Row>, rows': map<int, Row>, rows'': map<int, Row>, answer: int -> Answer,
                   gone: set<int>)
    requires DisposesOf(rows, rows', answer, PendingOf(rows) - PendingOf(rows'))
    requires DisposesOf(rows', rows'', answer, gone) && gone != {}
    ensures DisposesOf(rows, rows'', answer, PendingOf(rows) - PendingOf(rows''))
    ensures PendingOf(rows'') < PendingOf(rows')
  {
    Inhabited(gone);
    var x :| x in gone;
    assert x in PendingOf(rows') && x !in PendingOf(rows'');
    assert PendingOf(rows) - PendingOf(rows'') == (PendingOf(rows) - PendingOf(rows')) + gone;
  }

  /** A calm drain makes exactly one drain's worth of progress. */
  lemma CalmDrainProgress(c: Config, s: State, answer: int -> Answer) returns (gone: set<int>)
    requires c.batch > 0 && NoClaims(s.outbox) && PendingOf(s.outbox.rows) != {}
    ensures var rows, rows' := s.outbox.rows, AfterCalmDrain(c, s, answer);
            && DisposesOf(rows, rows', answer, gone) && gone != {}
            && DrainsNeeded(PendingOf(rows'), answer, c.batch) == DrainsNeeded(PendingOf(rows), answer, c.batch) - 1
  {
    var ids, batch := PendingOf(s.outbox.rows), FirstIds(Claimable(s.outbox), c.batch);
    assert Claimable(s.outbox) == ids;
    FirstIdsAreLeast(ids, c.batch);
    FirstBadIsBad(batch, answer);
    match FirstBad(batch, answer) {
      case Some(bad) =>
        gone := {bad};
        SettingAsideDisposes(s.outbox.rows, bad, s.now, answer);
        BadRowProgress(ids, bad, answer, c.batch);
      case None =>
        gone := Elements(batch);
        StampDisposes(s.outbox.rows, batch, s.now, answer);
        AscendingIsDistinct(batch);
        GoodBatchProgress(ids, gone, answer, c.batch);
    }
  }

  lemma BadRowProgress(ids: set<int>, bad: int, answer: int -> Answer, batch: nat)
    requires batch > 0 && bad in ids && Bad(answer, bad)
    ensures DrainsNeeded(ids - {bad}, answer, batch) == DrainsNeeded(ids, answer, batch) - 1
  {
    assert BadOnes(ids - {bad}, answer) == BadOnes(ids, answer) - {bad};
    assert (ids - {bad}) - BadOnes(ids - {bad}, answer) == ids - BadOnes(ids, answer);
  }

  /** Published if it can be, set aside if it cannot. */
  predicate Disposed(rows: map<int, Row>, answer: int -> Answer, id: int) {
    id in rows && if Bad(answer, id) then rows[id].failedAt.Some? else rows[id].publishedAt.Some?
  }

  lemma GoodBatchProgress(ids: set<int>, gone: set<int>, answer: int -> Answer, batch: nat)
    requires batch > 0 && gone <= ids && ids != {}
    requires |gone| == if |ids| < batch then |ids| else batch
    requires forall id :: id in gone ==> !Bad(answer, id)
    ensures DrainsNeeded(ids - gone, answer, batch) == DrainsNeeded(ids, answer, batch) - 1
  {
    assert BadOnes(ids - gone, answer) == BadOnes(ids, answer);
    var good := ids - BadOnes(ids, answer);
    assert (ids - gone) - BadOnes(ids - gone, answer) == good - gone;
    assert gone <= good;
    assert |good - gone| == |good| - |gone| by {
      assert good == gone + (good - gone);
    }
    if |ids| < batch {
      SubsetSize(gone, ids);
      assert good == gone && good - gone == {};
      CeilOfPart(|good|, batch);
      CeilOfPart(0, batch);
    } else {
      CeilOfLess(|good|, batch);
    }
  }

  // ---------- the code ----------

  class Deployment {
    const c: Config
    var s: State

    constructor (c: Config)
      ensures this.c == c && s == Start && Reaches(c, Start, s)
    {
      this.c := c;
      s := Start;
      ReachesItself(c, Start);
    }

    method Take(a: Action)
      requires Reaches(c, Start, s)
      modifies this
      ensures s == Next(c, old(s), a)
      ensures Reaches(c, Start, s) && Reaches(c, old(s), s)
    {
      ReachesItself(c, s);
      ReachesStep(c, s, s, a);
      ReachesOn(c, Start, s, Next(c, s, a));
      s := Next(c, s, a);
    }

    /** Steps by anybody but relay r. */
    method OthersThanRelay(r: nat, acts: seq<Action>)
      requires Reaches(c, Start, s)
      modifies this
      ensures Reaches(c, Start, s) && Reaches(c, old(s), s)
      ensures RelayOf(s.outbox, r) == RelayOf(old(s).outbox, r)
      ensures acts == [] ==> s == old(s)
    {
      ReachesItself(c, s);
      for k := 0 to |acts|
        invariant Reaches(c, Start, s) && Reaches(c, old(s), s)
        invariant RelayOf(s.outbox, r) == RelayOf(old(s).outbox, r)
        invariant k == 0 ==> s == old(s)
      {
        if !(acts[k].RelayDoes? && acts[k].r == r) {
          OthersLeaveRelay(c, s, acts[k], r);
          ghost var before := s;
          Take(acts[k]);
          ReachesOn(c, old(s), before, s);
        }
      }
    }

    /** Steps by anybody but worker w. */
    method OthersThanWorker(w: nat, acts: seq<Action>)
      requires Reaches(c, Start, s)
      modifies this
      ensures Reaches(c, Start, s) && Reaches(c, old(s), s)
      ensures WorkerOf(s.view, w) == WorkerOf(old(s).view, w)
      ensures acts == [] ==> s == old(s)
    {
      ReachesItself(c, s);
      for k := 0 to |acts|
        invariant Reaches(c, Start, s) && Reaches(c, old(s), s)
        invariant WorkerOf(s.view, w) == WorkerOf(old(s).view, w)
        invariant k == 0 ==> s == old(s)
      {
        if !(acts[k].WorkerDoes? && acts[k].w == w) {
          OthersLeaveWorker(c, s, acts[k], w);
          ghost var before := s;
          Take(acts[k]);
          ReachesOn(c, old(s), before, s);
        }
      }
    }

    /** Claims and publishes at most one batch. However the drain ends, and whatever the
        others did meanwhile, the whole is a run of the step system and the relay holds
        nothing afterwards. Without an error, the n rows are the first claimable ones of the
        moment it claimed, and all of them are published and on the stream; a row reported as
        quarantined is no longer pending. */
    method DrainOnce(r: nat, x: Circumstances) returns (n: nat, err: Option<DrainError>)
      requires Reaches(c, Start, s) && RelayOf(s.outbox, r).Idle?
      modifies this
      ensures Reaches(c, Start, s) && Reaches(c, old(s), s) && RelayOf(s.outbox, r).Idle?
      ensures n <= c.batch && (err.Some? ==> n == 0)
      ensures err.None? ==> exists mid: State ::
                Reaches(c, old(s), mid) && PublishedClaim(c, r, mid, s, n)
      ensures err.Some? && err.value.Quarantined? ==>
                !(err.value.id in s.outbox.rows && s.outbox.rows[err.value.id].Pending())
      ensures Calm(x) && NoClaims(old(s).outbox) ==>
                && s.outbox.rows == AfterCalmDrain(c, old(s), x.answer)
                && DrainedCalmly(old(s), s.outbox.rows, FirstIds(Claimable(old(s).outbox), c.batch), x.answer)
                && NoClaims(s.outbox) && s.now == old(s).now
    {
      AfterCalmDrainMeans(c, s, x.answer);
      ghost var begun := OpenClaim(r, x);
      var tx := RelayOf(s.outbox, r);
      if !tx.Open? {
        assert Stamp(s.outbox.rows, [], s.now) == s.outbox.rows;
        EmptyClaim(c, r, s);
        return 0, None;
      }
      ghost var claimed := s;
      n, err := PublishAndMark(r, x);
      ReachesOn(c, old(s), claimed, s);
      if err.None? {
        ClaimIsPublished(c, r, begun, s, n);
      }
    }

    /** The claim query, in a transaction that stays open if it finds anything. */
    method OpenClaim(r: nat, x: Circumstances) returns (ghost begun: State)
      requires Reaches(c, Start, s) && RelayOf(s.outbox, r).Idle?
      modifies this
      ensures Reaches(c, Start, s) && Reaches(c, old(s), s) && Reaches(c, old(s), begun)
      ensures RelayOf(begun.outbox, r).Idle? && s == Next(c, begun, RelayDoes(r, Claim))
      ensures var batch := FirstIds(Claimable(begun.outbox), c.batch);
              && |batch| <= c.batch
              && (if batch == [] then s == begun
                  else s == begun.(outbox := SetRelay(begun.outbox, r, Open(batch, 0, false, begun.now))))
      ensures x.others(0) == [] ==> begun == old(s)
    {
      OthersThanRelay(r, x.others(0));
      begun := s;
      ClaimOpens(c, s, r);
      Take(RelayDoes(r, Claim));
      ReachesOn(c, old(s), begun, s);
    }

    /** The rest of the drain, inside the claim's transaction. */
    method PublishAndMark(r: nat, x: Circumstances) returns (n: nat, err: Option<DrainError>)
      requires Reaches(c, Start, s) && RelayOf(s.outbox, r).Open? && RelayOf(s.outbox, r).acked == 0
      requires !RelayOf(s.outbox, r).marked && |RelayOf(s.outbox, r).batch| <= c.batch
      modifies this
      ensures Reaches(c, Start, s) && Reaches(c, old(s), s) && RelayOf(s.outbox, r).Idle?
      ensures n == if err.None? then |RelayOf(old(s).outbox, r).batch| else 0
      ensures var tx := RelayOf(old(s).outbox, r);
              err.None? ==> IsPublished(s, tx.batch, tx.since) && MarkedBetween(c, old(s), s, tx.batch, tx.since)
      ensures err.Some? && err.value.Quarantined? ==>
                !(err.value.id in s.outbox.rows && s.outbox.rows[err.value.id].Pending())
      ensures Calm(x) && NoOtherClaims(old(s).outbox, r) ==>
                && s.now == old(s).now && NoClaims(s.outbox)
                && s.outbox.rows == AfterClaim(old(s).outbox.rows, RelayOf(old(s).outbox, r), old(s).now, x.answer)
    {
      var tx := RelayOf(s.outbox, r);
      err := PublishBatch(r, tx.batch, x);
      if err.Some? {
        return 0, err;
      }
      ghost var start, published := old(s), s;
      err := MarkAndCommit(r, x);
      ReachesOn(c, start, published, s);
      if err.None? {
        MarkedEarlier(c, start, published, s, tx.batch, tx.since);
      }
      n := if err.None? then |tx.batch| else 0;
    }

    /** The publishing loop: stops at the first failure, and sets an impossible row aside
        after rolling back. */
    method PublishBatch(r: nat, batch: seq<int>, x: Circumstances) returns (err: Option<DrainError>)
      requires Reaches(c, Start, s)
      requires RelayOf(s.outbox, r).Open? && RelayOf(s.outbox, r).(acked := 0) == RelayOf(s.outbox, r)
      requires RelayOf(s.outbox, r).batch == batch
      modifies this
      ensures Reaches(c, Start, s) && Reaches(c, old(s), s)
      ensures err.None? ==> RelayOf(s.outbox, r) == RelayOf(old(s).outbox, r).(acked := |batch|)
      ensures err.Some? ==> RelayOf(s.outbox, r).Idle?
      ensures err.Some? && err.value.Quarantined? ==>
                !(err.value.id in s.outbox.rows && s.outbox.rows[err.value.id].Pending())
      ensures Calm(x) && NoOtherClaims(old(s).outbox, r) ==>
                && s.now == old(s).now && NoOtherClaims(s.outbox, r)
                && match FirstBad(batch, x.answer)
                   case None => err.None? && s.outbox.rows == old(s).outbox.rows
                   case Some(id) =>
                     && id in old(s).outbox.rows && err == Some(Quarantined(id))
                     && s.outbox.rows == old(s).outbox.rows[id := old(s).outbox.rows[id].(failedAt := Some(s.now))]
    {
      ghost var calm := Calm(x) && NoOtherClaims(s.outbox, r);
      ReachesItself(c, s);
      for k := 0 to |batch|
        invariant Reaches(c, Start, s) && Reaches(c, old(s), s)
        invariant RelayOf(s.outbox, r) == RelayOf(old(s).outbox, r).(acked := k)
        invariant calm ==> OnlyRelayChanged(old(s), s, r) && FirstBad(batch, x.answer) == FirstBad(batch[k..], x.answer)
      {
        ghost var here := s;
        OthersThanRelay(r, x.others(1 + k));
        ReachesOn(c, old(s), here, s);
        var id := batch[k];
        assert batch[k..][0] == id && batch[k..][1..] == batch[k + 1..];
        ClaimHolds(c, s, r, k);
        PublishOutcome(c, s, r, x.answer(id));
        ghost var there := s;
        Take(RelayDoes(r, Publish(x.answer(id))));
        ReachesOn(c, old(s), there, s);
        match x.answer(id) {
          case Stored =>
          case Unacked => return Some(PublishFailed(id));
          case Refused => return Some(PublishFailed(id));
          case Impossible =>
            ghost var rejected := s;
            err := SetRowAside(r, id, x);
            ReachesOn(c, old(s), rejected, s);
            return;
        }
      }
      assert batch[|batch|..] == [];
      return None;
    }

    /** quarantine: one UPDATE in a transaction of its own. It gives up if the row stays
        locked until its timeout. */
    method SetRowAside(r: nat, id: int, x: Circumstances) returns (err: Option<DrainError>)
      requires Reaches(c, Start, s) && RelayOf(s.outbox, r) == Rejected(id)
      modifies this
      ensures Reaches(c, Start, s) && Reaches(c, old(s), s)
      ensures RelayOf(s.outbox, r).Idle? && (err == Some(Quarantined(id)) || err == Some(NotQuarantined(id)))
      ensures err.value.Quarantined? ==> !(id in s.outbox.rows && s.outbox.rows[id].Pending())
      ensures Calm(x) && NoOtherClaims(old(s).outbox, r) && id in PendingOf(old(s).outbox.rows) ==>
                && err.value.Quarantined? && s.now == old(s).now && NoOtherClaims(s.outbox, r)
                && s.outbox.rows == old(s).outbox.rows[id := old(s).outbox.rows[id].(failedAt := Some(s.now))]
    {
      OthersThanRelay(r, x.others(2 + c.batch));
      ghost var here := s;
      if x.quarantineFails || Locked(s.outbox, id) {
        Take(RelayDoes(r, Abandon));
        ReachesOn(c, old(s), here, s);
        return Some(NotQuarantined(id));
      }
      QuarantineOutcome(c, s, r);
      Take(RelayDoes(r, Quarantine));
      ReachesOn(c, old(s), here, s);
      return Some(Quarantined(id));
    }

    /** markPublished and the commit. */
    method MarkAndCommit(r: nat, x: Circumstances) returns (err: Option<DrainError>)
      requires Reaches(c, Start, s) && RelayOf(s.outbox, r).Open?
      requires RelayOf(s.outbox, r).acked == |RelayOf(s.outbox, r).batch|
      modifies this
      ensures Reaches(c, Start, s) && Reaches(c, old(s), s) && RelayOf(s.outbox, r).Idle?
      ensures var tx := RelayOf(old(s).outbox, r);
              err.None? ==> IsPublished(s, tx.batch, tx.since) && MarkedBetween(c, old(s), s, tx.batch, tx.since)
      ensures err.None? || err.value.MarkFailed? || err.value.CommitFailed?
      ensures Calm(x) && NoOtherClaims(old(s).outbox, r) ==>
                && err.None? && s.now == old(s).now && NoClaims(s.outbox)
                && var tx := RelayOf(old(s).outbox, r);
                   && s.outbox.rows == Stamp(old(s).outbox.rows, tx.batch, tx.since)
                   && Marks(old(s).outbox.rows, s.outbox.rows, tx.batch, tx.since)
    {
      ghost var start := s;
      OthersThanRelay(r, x.others(1 + c.batch));
      ghost var here := s;
      if x.markFails {
        Take(RelayDoes(r, Abandon));
        ReachesOn(c, start, here, s);
        return Some(MarkFailed);
      }
      Take(RelayDoes(r, Mark));
      ReachesOn(c, start, here, s);
      here := s;
      OthersThanRelay(r, x.others(2 + c.batch));
      ReachesOn(c, start, here, s);
      here := s;
      CommitOutcome(c, s, r);
      if x.commit.NotCommitted? {
        Take(RelayDoes(r, Abandon));
        ReachesOn(c, start, here, s);
        return Some(CommitFailed);
      }
      Take(RelayDoes(r, Commit));
      ReachesOn(c, start, here, s);
      ReachesItself(c, s);
      assert MarkedBetween(c, start, s, RelayOf(start.outbox, r).batch, RelayOf(start.outbox, r).since);
      return if x.commit.Unreported? then Some(CommitFailed) else None;
    }

    /** Projection.Handle: the dedup row first, then the counter, then one commit for both.
        Success means the event is of no interest or has been applied; an OrderCreated that
        does not decode or names no tenant fails for good, and nothing else does. Undisturbed,
        it counts the event for its tenant exactly if no earlier delivery did. */
    method Handle(w: nat, x: Chances) returns (ok: bool)
      requires Reaches(c, Start, s) && WorkerOf(s.view, w).Received?
      modifies this
      ensures Reaches(c, Start, s) && Reaches(c, old(s), s)
      ensures var job := WorkerOf(old(s).view, w).job;
              && (if ok then WorkerOf(s.view, w) == Handled(job)
                  else WorkerOf(s.view, w) == Failed(job, Unusable(job.body)))
              && (!job.body.created ==> ok) && (Unusable(job.body) ==> !ok)
      ensures var job := WorkerOf(old(s).view, w).job;
              Undisturbed(x) && OthersFree(old(s).view, w) && old(s).now <= job.deadline ==>
                && OthersFree(s.view, w) && s.view.progress == old(s).view.progress && s.now == old(s).now
                && ok == !Unusable(job.body)
                && HandledOnce(old(s).view, s.view, job, old(s).now)
    {
      var job := WorkerOf(s.view, w).job;
      WhatEventsAre(job.body);
      OthersThanWorker(w, x.others(1));
      ghost var here := s;
      HandlerOutcome(c, s, w, Decide);
      Take(WorkerDoes(w, Decide));
      ReachesOn(c, old(s), here, s);
      match EffectOf(job.body) {
        case Ignore => return true;
        case Refuse => return false;
        case Apply(_) =>
          here := s;
          ok := Transact(w, x);
          ReachesOn(c, old(s), here, s);
      }
    }

    /** The transaction inside Handle. */
    method Transact(w: nat, x: Chances) returns (ok: bool)
      requires Reaches(c, Start, s) && WorkerOf(s.view, w).Begun? && EffectOf(WorkerOf(s.view, w).job.body).Apply?
      modifies this
      ensures Reaches(c, Start, s) && Reaches(c, old(s), s)
      ensures WorkerOf(s.view, w) ==
              if ok then Handled(WorkerOf(old(s).view, w).job) else Failed(WorkerOf(old(s).view, w).job, false)
      ensures var job, since := WorkerOf(old(s).view, w).job, WorkerOf(old(s).view, w).since;
              Undisturbed(x) && OthersFree(old(s).view, w) && old(s).now <= job.deadline ==>
                && ok && OthersFree(s.view, w) && s.view.progress == old(s).view.progress && s.now == old(s).now
                && if job.id !in old(s).view.processed then
                     AppliesOnce(old(s).view, s.view, job, EffectOf(job.body).tenant, since)
                   else SameTables(old(s).view, s.view)
    {
      ok := ClaimFirst(w, x);
      if WorkerOf(s.view, w).Claimed? {
        ghost var here := s;
        ok := CountAndCommit(w, x);
        ReachesOn(c, old(s), here, s);
      }
    }

    /** The dedup row: already there, inserted, or not to be had. */
    method ClaimFirst(w: nat, x: Chances) returns (ok: bool)
      requires Reaches(c, Start, s) && WorkerOf(s.view, w).Begun? && EffectOf(WorkerOf(s.view, w).job.body).Apply?
      modifies this
      ensures Reaches(c, Start, s) && Reaches(c, old(s), s)
      ensures var job, since := WorkerOf(old(s).view, w).job, WorkerOf(old(s).view, w).since;
              && (ok ==> WorkerOf(s.view, w) == Handled(job))
              && (!ok ==> WorkerOf(s.view, w) == Claimed(job, since) || WorkerOf(s.view, w) == Failed(job, false))
      ensures var job, since := WorkerOf(old(s).view, w).job, WorkerOf(old(s).view, w).since;
              Undisturbed(x) && OthersFree(old(s).view, w) && old(s).now <= job.deadline ==>
                && OthersFree(s.view, w) && s.view.progress == old(s).view.progress && s.now == old(s).now
                && SameTables(old(s).view, s.view) && ok == (job.id in old(s).view.processed)
                && (!ok ==> WorkerOf(s.view, w) == Claimed(job, since))
    {
      var job := WorkerOf(s.view, w).job;
      OthersThanWorker(w, x.others(2));
      ghost var here := s;
      if x.fails(1) || s.now > job.deadline || EventHeld(s.view, job.id) {
        GiveUp(w);
        ReachesOn(c, old(s), here, s);
        return false;
      }
      HandlerOutcome(c, s, w, ClaimEvent);
      Take(WorkerDoes(w, ClaimEvent));
      ReachesOn(c, old(s), here, s);
      return WorkerOf(s.view, w).Handled?;
    }

    /** The counter, and the commit of both rows. */
    method CountAndCommit(w: nat, x: Chances) returns (ok: bool)
      requires Reaches(c, Start, s) && WorkerOf(s.view, w).Claimed? && EffectOf(WorkerOf(s.view, w).job.body).Apply?
      modifies this
      ensures Reaches(c, Start, s) && Reaches(c, old(s), s)
      ensures WorkerOf(s.view, w) ==
              if ok then Handled(WorkerOf(old(s).view, w).job) else Failed(WorkerOf(old(s).view, w).job, false)
      ensures var job, since := WorkerOf(old(s).view, w).job, WorkerOf(old(s).view, w).since;
              Undisturbed(x) && OthersFree(old(s).view, w) && old(s).now <= job.deadline ==>
                && ok && OthersFree(s.view, w) && s.view.progress == old(s).view.progress && s.now == old(s).now
                && AppliesOnce(old(s).view, s.view, job, EffectOf(job.body).tenant, since)
    {
      var job := WorkerOf(s.view, w).job;
      OthersThanWorker(w, x.others(3));
      ghost var here := s;
      if x.fails(2) || s.now > job.deadline || TenantHeld(s.view, EffectOf(job.body)) {
        GiveUp(w);
        ReachesOn(c, old(s), here, s);
        return false;
      }
      HandlerOutcome(c, s, w, Count);
      Take(WorkerDoes(w, Count));
      ReachesOn(c, old(s), here, s);
      here := s;
      OthersThanWorker(w, x.others(4));
      ReachesOn(c, old(s), here, s);
      here := s;
      if x.fails(3) || s.now > job.deadline {
        GiveUp(w);
        ReachesOn(c, old(s), here, s);
        return false;
      }
      HandlerOutcome(c, s, w, CommitEvent(x.told));
      CommitEventOutcome(c, s, w, x.told);
      Take(WorkerDoes(w, CommitEvent(x.told)));
      ReachesOn(c, old(s), here, s);
      return x.told;
    }

    /** The handler's deferred rollback. */
    method GiveUp(w: nat)
      requires Reaches(c, Start, s)
      requires WorkerOf(s.view, w).Begun? || WorkerOf(s.view, w).Claimed? || WorkerOf(s.view, w).Counted?
      modifies this
      ensures Reaches(c, Start, s) && Reaches(c, old(s), s)
      ensures WorkerOf(s.view, w) == Failed(WorkerOf(old(s).view, w).job, false)
    {
      HandlerOutcome(c, s, w, Fail);
      Take(WorkerDoes(w, Fail));
    }

    /** dispatch: run the handler and decide the message's fate. A message is acknowledged
        only if it is of no interest or applied; it is terminated only once its dead letter
        is stored; it is left to the broker only while it has deliveries left, except when
        the dead letter did not land. */
    method Dispatch(w: nat, i: nat, x: Chances) returns (end: Ending, attempt: nat)
      requires Reaches(c, Start, s) && WorkerOf(s.view, w).Free?
      modifies this
      ensures Reaches(c, Start, s) && Reaches(c, old(s), s) && WorkerOf(s.view, w).Free?
      ensures !end.NotDelivered? ==> i < |s.stream| && Filtered(c, s.stream[i].id)
      ensures end.AckSent? ==> !s.stream[i].body.created || WasApplied(s.view, s.stream[i].id)
      ensures !end.NotDelivered? && Unusable(s.stream[i].body) ==> end.DeadLettered? || end.NotCopied?
      ensures end.DeadLettered? ==> Has(s.stream, Dead(s.stream[i].id))
      ensures end.LeftForRetry? ==> attempt < c.maxDeliver
      ensures end.NotCopied? ==> x.dlq != Stored && (attempt >= c.maxDeliver || Unusable(s.stream[i].body))
      ensures Undisturbed(x) && OthersFree(old(s).view, w) && Deliverable(c, old(s), i) && c.ackWait >= 0 ==>
                var copy := old(s).stream[i];
                && ProgressOf(s.view, i).fate == (if Unusable(copy.body) then Terminated else Acked)
                && end == (if Unusable(copy.body) then DeadLettered else AckSent)
                && HandledOnce(old(s).view, s.view,
                               Job(i, copy.id, copy.body, ProgressOf(old(s).view, i).deliveries + 1,
                                   old(s).now + c.ackWait),
                               old(s).now)
    {
      OthersThanWorker(w, x.others(0));
      ghost var here := s;
      DeliverOutcome(c, s, w, i);
      Take(WorkerDoes(w, Deliver(i)));
      ReachesOn(c, old(s), here, s);
      if !WorkerOf(s.view, w).Received? {
        return NotDelivered, 0;
      }
      here := s;
      DeliveredIsOnStream(c, here, w);
      end, attempt := Process(w, x);
      ReachesOn(c, old(s), here, s);
      StreamOnlyGrows(here);
    }

    /** The rest of dispatch, once the message is in hand. */
    method Process(w: nat, x: Chances) returns (end: Ending, attempt: nat)
      requires Reaches(c, Start, s) && WorkerOf(s.view, w).Received?
      modifies this
      ensures Reaches(c, Start, s) && Reaches(c, old(s), s) && WorkerOf(s.view, w).Free?
      ensures attempt == WorkerOf(old(s).view, w).job.attempt
      ensures Ends(c, WorkerOf(old(s).view, w).job, x.dlq, s, end)
      ensures var job := WorkerOf(old(s).view, w).job;
              Undisturbed(x) && OthersFree(old(s).view, w) && old(s).now <= job.deadline
              && ProgressOf(old(s).view, job.copy).fate == Outstanding ==>
                && ProgressOf(s.view, job.copy).fate == (if Unusable(job.body) then Terminated else Acked)
                && end == (if Unusable(job.body) then DeadLettered else AckSent)
                && HandledOnce(old(s).view, s.view, job, old(s).now)
    {
      var job := WorkerOf(s.view, w).job;
      attempt := job.attempt;
      ghost var start := s;
      var ok := Handle(w, x);
      HandledIsJustified(c, s, w);
      ghost var here := s;
      end := Answer(w, job, ok, x);
      ReachesOn(c, start, here, s);
      AppliedOnlyGrows(here);
    }

    /** What dispatch does with the handler's result: ack, dead-letter, or nak. */
    method Answer(w: nat, job: Job, ok: bool, x: Chances) returns (end: Ending)
      requires Reaches(c, Start, s)
      requires WorkerOf(s.view, w) == if ok then Handled(job) else Failed(job, Unusable(job.body))
      modifies this
      ensures Reaches(c, Start, s) && Reaches(c, old(s), s) && WorkerOf(s.view, w).Free?
      ensures end == if ok then AckSent
                     else if Unusable(job.body) || job.attempt >= c.maxDeliver then
                       (if x.dlq == Stored then DeadLettered else NotCopied)
                     else LeftForRetry
      ensures end == DeadLettered ==> Has(s.stream, Dead(job.id))
      ensures Undisturbed(x) && ProgressOf(old(s).view, job.copy).fate == Outstanding && !end.LeftForRetry? ==>
                && ProgressOf(s.view, job.copy).fate == (if ok then Acked else Terminated)
                && SameTables(old(s).view, s.view)
    {
      OthersThanWorker(w, x.others(5));
      ghost var here := s;
      if ok {
        Take(WorkerDoes(w, Ack(x.ackArrives)));
        end := AckSent;
      } else if WorkerOf(s.view, w).permanent || job.attempt >= c.maxDeliver {
        end := SendDeadLetter(w, x);
      } else {
        Take(WorkerDoes(w, Nak));
        end := LeftForRetry;
      }
      ReachesOn(c, old(s), here, s);
    }

    /** deadLetter: store the copy, and only then stop redelivery. */
    method SendDeadLetter(w: nat, x: Chances) returns (end: Ending)
      requires Reaches(c, Start, s) && WorkerOf(s.view, w).Failed?
      requires WorkerOf(s.view, w).permanent || WorkerOf(s.view, w).job.attempt >= c.maxDeliver
      modifies this
      ensures Reaches(c, Start, s) && Reaches(c, old(s), s) && WorkerOf(s.view, w).Free?
      ensures if x.dlq == Stored then end == DeadLettered && Has(s.stream, Dead(WorkerOf(old(s).view, w).job.id))
              else end == NotCopied
      ensures Undisturbed(x) && ProgressOf(old(s).view, WorkerOf(old(s).view, w).job.copy).fate == Outstanding ==>
                && ProgressOf(s.view, WorkerOf(old(s).view, w).job.copy).fate == Terminated
                && SameTables(old(s).view, s.view)
    {
      ghost var here := s;
      DeadLetterOutcome(c, s, w, x.dlq);
      Take(WorkerDoes(w, DeadLetter(x.dlq)));
      if x.dlq != Stored {
        return NotCopied;
      }
      ghost var copied := s;
      StopRedelivery(w, x);
      ReachesOn(c, here, copied, s);
      StreamOnlyGrows(copied);
      return DeadLettered;
    }

    /** The termination of a message whose copy is stored. */
    method StopRedelivery(w: nat, x: Chances)
      requires Reaches(c, Start, s) && WorkerOf(s.view, w).Copied?
      modifies this
      ensures Reaches(c, Start, s) && Reaches(c, old(s), s) && WorkerOf(s.view, w).Free?
      ensures Undisturbed(x) && ProgressOf(old(s).view, WorkerOf(old(s).view, w).job.copy).fate == Outstanding ==>
                && ProgressOf(s.view, WorkerOf(old(s).view, w).job.copy).fate == Terminated
                && SameTables(old(s).view, s.view)
    {
      OthersThanWorker(w, x.others(6));
      ghost var here := s;
      Take(WorkerDoes(w, Terminate(x.termArrives)));
      ReachesOn(c, old(s), here, s);
    }

    /** The stream is append-only along any run. */
    lemma StreamOnlyGrows(before: State)
      requires Reaches(c, Start, before) && Reaches(c, before, s)
      ensures before.stream <= s.stream && forall id :: Has(before.stream, id) ==> Has(s.stream, id)
    {
      ReachableIsInv(c, before);
      var run :| Exec(c, before, run) == s;
      EveryRunKeepsInv(c, before, run);
      HasGrows(before.stream, s.stream);
    }

    /** So is the history of applied events. */
    lemma AppliedOnlyGrows(before: State)
      requires Reaches(c, before, s)
      ensures forall id :: WasApplied(before.view, id) ==> WasApplied(s.view, id)
    {
      var run :| Exec(c, before, run) == s;
      RunKeepsApplied(c, before, run);
    }

    /** Run's loop over a backlog, with one relay, no transient failure and no new rows.
        Poison rows do not block: p rows that cannot be published and n others are all set
        aside or published after exactly p + ceil(n / batch) drains. */
    method DrainBacklog(r: nat, x: Circumstances) returns (drains: nat)
      requires Reaches(c, Start, s) && c.batch > 0 && Calm(x) && NoClaims(s.outbox) && RelayOf(s.outbox, r).Idle?
      modifies this
      ensures Reaches(c, Start, s) && Reaches(c, old(s), s)
      ensures drains == DrainsNeeded(PendingOf(old(s).outbox.rows), x.answer, c.batch)
      ensures DisposesOf(old(s).outbox.rows, s.outbox.rows, x.answer, PendingOf(old(s).outbox.rows))
    {
      ReachesItself(c, s);
      drains := 0;
      ghost var backlog := PendingOf(s.outbox.rows);
      assert backlog - backlog == {};
      while PendingOf(s.outbox.rows) != {}
        invariant Reaches(c, Start, s) && Reaches(c, old(s), s) && NoClaims(s.outbox) && RelayOf(s.outbox, r).Idle?
        invariant drains + DrainsNeeded(PendingOf(s.outbox.rows), x.answer, c.batch) ==
                  DrainsNeeded(backlog, x.answer, c.batch)
        invariant DisposesOf(old(s).outbox.rows, s.outbox.rows, x.answer, backlog - PendingOf(s.outbox.rows))
        decreases PendingOf(s.outbox.rows)
      {
        ghost var here := s;
        ghost var gone := CalmDrainProgress(c, s, x.answer);
        var n, err := DrainOnce(r, x);
        ReachesOn(c, old(s), here, s);
        drains := drains + 1;
        DisposesOn(old(s).outbox.rows, here.outbox.rows, s.outbox.rows, x.answer, gone);
      }
      assert BadOnes({}, x.answer) == {};
      CeilOfPart(0, c.batch);
    }
  }
}
