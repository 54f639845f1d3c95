/** What every run of the pipeline keeps, whoever takes the next step. */
module PipelineSafety {
  import opened Results
  import opened MessageIds
  import opened Pipeline

  // ---------- the claim query ----------

  predicate Ascending(ids: seq<int>) {
    forall i, j :: 0 <= i < j < |ids| ==> ids[i] < ids[j]
  }

  /** The batch is the least ids of the set, in order, as many as the limit allows. */
  lemma {:induction false} FirstIdsAreLeast(ids: set<int>, n: nat)
    ensures var batch := FirstIds(ids, n);
            && Ascending(batch)
            && (forall i :: 0 <= i < |batch| ==> batch[i] in ids)
            && (forall i, x :: 0 <= i < |batch| && x in ids && x < batch[i] ==> x in batch)
            && |batch| == (if |ids| < n then |ids| else n)
    decreases n
  {
    if n > 0 && ids != {} {
      var m := Least(ids);
      FirstIdsAreLeast(ids - {m}, n - 1);
      LeastFirst(ids, m, FirstIds(ids - {m}, n - 1));
      assert ids == (ids - {m}) + {m};
    }
  }

  lemma LeastFirst(ids: set<int>, m: int, tail: seq<int>)
    requires m in ids && forall x :: x in ids ==> m <= x
    requires Ascending(tail) && forall x :: x in tail ==> x in ids - {m}
    requires forall i, x :: 0 <= i < |tail| && x in ids - {m} && x < tail[i] ==> x in tail
    ensures var batch := [m] + tail;
            && Ascending(batch) && (forall i :: 0 <= i < |batch| ==> batch[i] in ids)
            && (forall i, x :: 0 <= i < |batch| && x in ids && x < batch[i] ==> x in batch)
  {
    var batch := [m] + tail;
    forall i | 0 < i < |batch| ensures batch[i] in tail {
      assert batch[i] == tail[i - 1];
    }
    forall i, x | 0 <= i < |batch| && x in ids && x < batch[i] ensures x in batch {
      if x == m {
        assert batch[0] == m;
      } else {
        assert batch[i] == tail[i - 1];
      }
    }
  }

  // ---------- the relays' side ----------

  predicate RowOk(o: Outbox, stream: seq<Copy>, id: int) {
    && id > 0 && id in o.rows && id in o.born
    && o.rows[id].body == o.born[id]
    && !(o.rows[id].publishedAt.Some? && o.rows[id].failedAt.Some?)
    && (o.rows[id].publishedAt.Some? ==> Has(stream, Live(id)))
  }

  /** A claim transaction holds rows that are pending and in id order, and what it counts
      as published is on the stream. */
  predicate ClaimOk(o: Outbox, stream: seq<Copy>, tx: Relay)
    requires tx.Open?
  {
    && tx.batch != [] && tx.acked <= |tx.batch| && (tx.marked ==> tx.acked == |tx.batch|)
    && Ascending(tx.batch)
    && (forall k :: 0 <= k < |tx.batch| ==> tx.batch[k] in o.rows && o.rows[tx.batch[k]].Pending())
    && (forall k :: 0 <= k < tx.acked ==> Has(stream, Live(tx.batch[k])))
  }

  predicate Disjoint(a: seq<int>, b: seq<int>) {
    forall x :: x in a ==> x !in b
  }

  predicate OutboxOk(o: Outbox, stream: seq<Copy>) {
    && (forall id :: id in o.rows ==> RowOk(o, stream, id))
    && (forall id :: id in o.born ==> id > 0 && (id in o.rows || Has(stream, Live(id))))
    && (forall r :: r in o.relays && o.relays[r].Open? ==> ClaimOk(o, stream, o.relays[r]))
    && (forall r, q :: r in o.relays && q in o.relays && r != q && o.relays[r].Open? && o.relays[q].Open? ==>
          Disjoint(o.relays[r].batch, o.relays[q].batch))
  }

  lemma HasGrows(stream: seq<Copy>, longer: seq<Copy>)
    requires stream <= longer
    ensures forall id :: Has(stream, id) ==> Has(longer, id)
  {
    forall id | Has(stream, id) ensures Has(longer, id) {
      var j :| 0 <= j < |stream| && stream[j].id == id;
      assert longer[j].id == id;
    }
  }

  lemma OutboxOkGrows(o: Outbox, stream: seq<Copy>, longer: seq<Copy>)
    requires OutboxOk(o, stream) && stream <= longer
    ensures OutboxOk(o, longer)
  {
    HasGrows(stream, longer);
    forall id | id in o.rows ensures RowOk(o, longer, id) {
      assert RowOk(o, stream, id);
    }
    forall r | r in o.relays && o.relays[r].Open? ensures ClaimOk(o, longer, o.relays[r]) {
      assert ClaimOk(o, stream, o.relays[r]);
    }
  }

  lemma StoreIsStored(c: Config, stream: seq<Copy>, id: Id, body: Body, now: int)
    ensures stream <= Store(c, stream, id, body, now)
    ensures Has(Store(c, stream, id, body, now), id)
  {
    var longer := Store(c, stream, id, body, now);
    if longer != stream {
      assert longer[|stream|].id == id;
    }
  }

  /** Replacing one relay's state: enough that the new state is in order by itself. */
  lemma SetRelayOk(o: Outbox, stream: seq<Copy>, r: nat, relay: Relay)
    requires OutboxOk(o, stream)
    requires relay.Open? ==>
               && ClaimOk(o, stream, relay)
               && forall q :: q in o.relays && q != r && o.relays[q].Open? ==> Disjoint(relay.batch, o.relays[q].batch)
    ensures OutboxOk(SetRelay(o, r, relay), stream)
  {
    var o' := SetRelay(o, r, relay);
    forall id | id in o'.rows ensures RowOk(o', stream, id) {
      assert RowOk(o, stream, id);
    }
    forall q | q in o'.relays && o'.relays[q].Open? ensures ClaimOk(o', stream, o'.relays[q]) {
      if q != r {
        assert ClaimOk(o, stream, o.relays[q]);
      }
    }
    forall p, q | p in o'.relays && q in o'.relays && p != q && o'.relays[p].Open? && o'.relays[q].Open?
      ensures Disjoint(o'.relays[p].batch, o'.relays[q].batch)
    {
      if p != r && q != r {
        assert Disjoint(o.relays[p].batch, o.relays[q].batch);
      }
    }
  }

  /** Changing rows nobody holds: enough that each changed row is in order by itself. */
  lemma SetRowsOk(o: Outbox, stream: seq<Copy>, rows: map<int, Row>)
    requires OutboxOk(o, stream)
    requires forall id :: id in rows ==> RowOk(o.(rows := rows), stream, id)
    requires forall id :: id in o.born && id !in rows ==> Has(stream, Live(id))
    requires forall id :: id in o.rows && Locked(o, id) ==> id in rows && rows[id] == o.rows[id]
    ensures OutboxOk(o.(rows := rows), stream)
  {
    var o' := o.(rows := rows);
    forall r | r in o'.relays && o'.relays[r].Open? ensures ClaimOk(o', stream, o'.relays[r]) {
      var tx := o.relays[r];
      assert ClaimOk(o, stream, tx);
      forall k | 0 <= k < |tx.batch| ensures tx.batch[k] in o'.rows && o'.rows[tx.batch[k]].Pending() {
        assert Locked(o, tx.batch[k]);
      }
    }
  }

  lemma ClaimKeepsOutbox(c: Config, o: Outbox, stream: seq<Copy>, now: int, r: nat)
    requires OutboxOk(o, stream)
    ensures OutboxOk(RelayNext(c, o, stream, now, r, Claim).0, stream)
  {
    var batch := FirstIds(Claimable(o), c.batch);
    FirstIdsAreLeast(Claimable(o), c.batch);
    if RelayOf(o, r).Idle? && batch != [] {
      var tx := Open(batch, 0, false, now);
      forall q | q in o.relays && q != r && o.relays[q].Open? ensures Disjoint(batch, o.relays[q].batch) {
        forall x | x in batch ensures x !in o.relays[q].batch {
          assert x in Claimable(o);
        }
      }
      assert ClaimOk(o, stream, tx);
      SetRelayOk(o, stream, r, tx);
    }
  }

  lemma PublishKeepsOutbox(c: Config, o: Outbox, stream: seq<Copy>, now: int, r: nat, answer: Answer)
    requires OutboxOk(o, stream)
    ensures var (o', longer) := RelayNext(c, o, stream, now, r, Publish(answer));
            stream <= longer && OutboxOk(o', longer)
  {
    var tx := RelayOf(o, r);
    if tx.Open? && tx.acked < |tx.batch| && tx.batch[tx.acked] in o.rows {
      var id := tx.batch[tx.acked];
      StoreIsStored(c, stream, Live(id), o.rows[id].body, now);
      var (o', longer) := RelayNext(c, o, stream, now, r, Publish(answer));
      OutboxOkGrows(o, stream, longer);
      assert ClaimOk(o, longer, tx);
      if answer.Stored? {
        assert ClaimOk(o, longer, o'.relays[r]);
      }
      SetRelayOk(o, longer, r, o'.relays[r]);
    }
  }

  /** Committing stamps rows that are all on the stream and that no other relay holds. */
  lemma CommitKeepsOutbox(c: Config, o: Outbox, stream: seq<Copy>, now: int, r: nat)
    requires OutboxOk(o, stream)
    ensures OutboxOk(RelayNext(c, o, stream, now, r, Commit).0, stream)
  {
    var tx := RelayOf(o, r);
    if tx.Open? && tx.marked {
      assert ClaimOk(o, stream, tx);
      SetRelayOk(o, stream, r, Idle);
      var o1 := SetRelay(o, r, Idle);
      var rows := Stamp(o.rows, tx.batch, tx.since);
      forall id | id in rows ensures RowOk(o1.(rows := rows), stream, id) {
        assert RowOk(o, stream, id);
      }
      forall id | id in o1.rows && Locked(o1, id) ensures rows[id] == o1.rows[id] {
        var q :| q in o1.relays && o1.relays[q].Open? && id in o1.relays[q].batch;
        assert Disjoint(o.relays[r].batch, o.relays[q].batch);
      }
      SetRowsOk(o1, stream, rows);
    }
  }

  lemma QuarantineKeepsOutbox(c: Config, o: Outbox, stream: seq<Copy>, now: int, r: nat)
    requires OutboxOk(o, stream)
    ensures OutboxOk(RelayNext(c, o, stream, now, r, Quarantine).0, stream)
  {
    var tx := RelayOf(o, r);
    if tx.Rejected? && !Locked(o, tx.row) {
      SetRelayOk(o, stream, r, Idle);
      var o1 := SetRelay(o, r, Idle);
      if tx.row in o.rows && o.rows[tx.row].publishedAt.None? {
        var rows := o.rows[tx.row := o.rows[tx.row].(failedAt := Some(now))];
        forall id | id in rows ensures RowOk(o1.(rows := rows), stream, id) {
          assert RowOk(o, stream, id);
        }
        forall id | id in o1.rows && Locked(o1, id) ensures rows[id] == o1.rows[id] {
          var q :| q in o1.relays && o1.relays[q].Open? && id in o1.relays[q].batch;
          assert Locked(o, id);
        }
        SetRowsOk(o1, stream, rows);
      }
    }
  }

  lemma RelayKeepsOutbox(c: Config, o: Outbox, stream: seq<Copy>, now: int, r: nat, step: RelayStep)
    requires OutboxOk(o, stream)
    ensures var (o', longer) := RelayNext(c, o, stream, now, r, step);
            stream <= longer && OutboxOk(o', longer)
  {
    var tx := RelayOf(o, r);
    match step
    case Claim => ClaimKeepsOutbox(c, o, stream, now, r);
    case Publish(answer) => PublishKeepsOutbox(c, o, stream, now, r, answer);
    case Mark =>
      if tx.Open? && tx.acked == |tx.batch| {
        assert ClaimOk(o, stream, tx);
        SetRelayOk(o, stream, r, tx.(marked := true));
      }
    case Commit => CommitKeepsOutbox(c, o, stream, now, r);
    case Abandon => SetRelayOk(o, stream, r, Idle);
    case Quarantine => QuarantineKeepsOutbox(c, o, stream, now, r);
  }

  lemma TableStepKeepsOutbox(c: Config, s: State, a: Action)
    requires OutboxOk(s.outbox, s.stream)
    requires a.Insert? || a.Replay? || a.PruneOutbox?
    ensures OutboxOk(Next(c, s, a).outbox, s.stream)
  {
    var o, o' := s.outbox, Next(c, s, a).outbox;
    forall id | id in o'.rows ensures RowOk(o', s.stream, id) {
      if id in o.rows {
        assert RowOk(o, s.stream, id);
      }
    }
    forall r | r in o'.relays && o'.relays[r].Open? ensures ClaimOk(o', s.stream, o'.relays[r]) {
      var tx := o.relays[r];
      assert ClaimOk(o, s.stream, tx);
      forall k | 0 <= k < |tx.batch| ensures tx.batch[k] in o'.rows && o'.rows[tx.batch[k]].Pending() {
        assert Locked(o, tx.batch[k]);
        assert RowOk(o, s.stream, tx.batch[k]);
      }
    }
    forall id | id in o'.born ensures id > 0 && (id in o'.rows || Has(s.stream, Live(id))) {
      if id in o.rows {
        assert RowOk(o, s.stream, id);
      }
    }
  }

  // ---------- the stream ----------

  /** Every copy carries the body of a committed row, and every dead letter is of a row whose
      own message is on the stream. */
  predicate StreamOk(born: map<int, Body>, stream: seq<Copy>, now: int) {
    forall j :: 0 <= j < |stream| ==>
      && stream[j].id.Row() in born && stream[j].body == born[stream[j].id.Row()]
      && stream[j].storedAt <= now
      && Has(stream, Live(stream[j].id.Row()))
  }

  lemma StoreKeepsStream(c: Config, born: map<int, Body>, stream: seq<Copy>, now: int, id: Id, body: Body)
    requires StreamOk(born, stream, now)
    requires id.Row() in born && born[id.Row()] == body
    requires id.Live? || Has(stream, Live(id.Row()))
    ensures StreamOk(born, Store(c, stream, id, body, now), now)
  {
    StoreIsStored(c, stream, id, body, now);
    HasGrows(stream, Store(c, stream, id, body, now));
  }

  // ---------- the workers' side ----------

  /** The delivery a worker is busy with is of a message on the stream, taken before it aged
      out, and it will not claim its event later than AckWait after that. */
  predicate JobOk(c: Config, stream: seq<Copy>, job: Job) {
    && job.copy < |stream|
    && stream[job.copy].id == job.id && Filtered(c, job.id) && stream[job.copy].body == job.body
    && job.deadline <= stream[job.copy].storedAt + c.maxAge + c.ackWait
  }

  predicate WasApplied(v: View, id: Id) {
    exists k :: 0 <= k < |v.applied| && v.applied[k].id == id
  }

  predicate WorkerOk(c: Config, stream: seq<Copy>, now: int, v: View, at: Worker) {
    && (!at.Free? ==> JobOk(c, stream, at.job))
    && (at.Begun? || at.Claimed? || at.Counted? ==> EffectOf(at.job.body).Apply? && at.since <= now)
    && (at.Claimed? || at.Counted? ==> at.job.id !in v.processed)
    && (at.Counted? ==> at.tally == Bump(v.counts, EffectOf(at.job.body).tenant, at.job.body.occurredAt))
    && (at.Handled? ==> EffectOf(at.job.body) == Ignore || WasApplied(v, at.job.id))
    && (at.Copied? ==> Has(stream, Dead(at.job.id)))
  }

  predicate Holds(at: Worker) {
    at.Claimed? || at.Counted?
  }

  /** A message is acknowledged only after its handler succeeded, and terminated only after
      its dead letter is stored. */
  predicate FateOk(c: Config, stream: seq<Copy>, v: View, i: nat) {
    && i < |stream| && Filtered(c, stream[i].id)
    && (ProgressOf(v, i).fate == Acked ==> EffectOf(stream[i].body) == Ignore || WasApplied(v, stream[i].id))
    && (ProgressOf(v, i).fate == Terminated ==> Has(stream, Dead(stream[i].id)))
  }

  /** Replays the counter updates of a history. */
  function Project(applied: seq<Applied>): map<string, Tally> {
    if applied == [] then map[]
    else
      var counts := Project(applied[..|applied| - 1]);
      var e := applied[|applied| - 1];
      counts[e.tenant := Bump(counts, e.tenant, e.occurredAt)]
  }

  predicate AppliedOk(c: Config, born: map<int, Body>, now: int, e: Applied) {
    && Filtered(c, e.id) && e.id.Row() in born && EffectOf(born[e.id.Row()]) == Apply(e.tenant)
    && born[e.id.Row()].occurredAt == e.occurredAt && e.at <= now
  }

  predicate ViewOk(c: Config, born: map<int, Body>, stream: seq<Copy>, now: int, v: View) {
    && (forall w :: w in v.workers ==> WorkerOk(c, stream, now, v, v.workers[w]))
    && (forall w, u :: w in v.workers && u in v.workers && w != u && Holds(v.workers[w]) && Holds(v.workers[u]) ==>
          v.workers[w].job.id != v.workers[u].job.id)
    && (forall w, u :: w in v.workers && u in v.workers && w != u && v.workers[w].Counted? && v.workers[u].Counted? ==>
          EffectOf(v.workers[w].job.body) != EffectOf(v.workers[u].job.body))
    && (forall i :: i in v.progress ==> FateOk(c, stream, v, i))
    && v.counts == Project(v.applied)
    && (forall k :: 0 <= k < |v.applied| ==> AppliedOk(c, born, now, v.applied[k]))
    && (forall id :: id in v.processed ==> WasApplied(v, id))
  }

  lemma ViewOkGrows(c: Config, born: map<int, Body>, born': map<int, Body>, stream: seq<Copy>, longer: seq<Copy>,
                    now: int, later: int, v: View)
    requires ViewOk(c, born, stream, now, v) && stream <= longer && now <= later
    requires forall id :: id in born ==> id in born' && born'[id] == born[id]
    ensures ViewOk(c, born', longer, later, v)
  {
    HasGrows(stream, longer);
    forall w | w in v.workers ensures WorkerOk(c, longer, later, v, v.workers[w]) {
      assert WorkerOk(c, stream, now, v, v.workers[w]);
    }
    forall i | i in v.progress ensures FateOk(c, longer, v, i) {
      assert FateOk(c, stream, v, i);
    }
    forall k | 0 <= k < |v.applied| ensures AppliedOk(c, born', later, v.applied[k]) {
      assert AppliedOk(c, born, now, v.applied[k]);
    }
  }

  /** Replacing one worker's state: enough that the new state is in order by itself. */
  lemma SetWorkerOk(c: Config, born: map<int, Body>, stream: seq<Copy>, now: int, v: View, w: nat, at: Worker)
    requires ViewOk(c, born, stream, now, v)
    requires WorkerOk(c, stream, now, v, at)
    requires Holds(at) ==> forall u :: u in v.workers && u != w && Holds(v.workers[u]) ==>
                             v.workers[u].job.id != at.job.id
    requires at.Counted? ==> forall u :: u in v.workers && u != w && v.workers[u].Counted? ==>
                               EffectOf(v.workers[u].job.body) != EffectOf(at.job.body)
    ensures ViewOk(c, born, stream, now, SetWorker(v, w, at))
  {
    var v' := SetWorker(v, w, at);
    assert v'.applied == v.applied;
    assert forall id :: WasApplied(v', id) <==> WasApplied(v, id);
    forall u | u in v'.workers ensures WorkerOk(c, stream, now, v', v'.workers[u]) {
      if u != w {
        assert WorkerOk(c, stream, now, v, v.workers[u]);
      }
      assert WorkerOk(c, stream, now, v, v'.workers[u]);
    }
    forall i | i in v'.progress ensures FateOk(c, stream, v', i) {
      assert FateOk(c, stream, v, i);
      assert ProgressOf(v', i) == ProgressOf(v, i);
    }
  }

  /** Recording more of a message's progress, without letting its fate run ahead. */
  lemma SetProgressOk(c: Config, born: map<int, Body>, stream: seq<Copy>, now: int, v: View, i: nat, p: Progress)
    requires ViewOk(c, born, stream, now, v)
    requires FateOk(c, stream, v.(progress := v.progress[i := p]), i)
    ensures ViewOk(c, born, stream, now, v.(progress := v.progress[i := p]))
  {
    var v' := v.(progress := v.progress[i := p]);
    assert forall id :: WasApplied(v', id) <==> WasApplied(v, id);
    forall u | u in v'.workers ensures WorkerOk(c, stream, now, v', v'.workers[u]) {
      assert WorkerOk(c, stream, now, v, v.workers[u]);
    }
    forall k | k in v'.progress ensures FateOk(c, stream, v', k) {
      if k != i {
        assert FateOk(c, stream, v, k);
      }
    }
  }

  lemma WorkerOkOf(c: Config, born: map<int, Body>, stream: seq<Copy>, now: int, v: View, w: nat)
    requires ViewOk(c, born, stream, now, v)
    ensures WorkerOk(c, stream, now, v, WorkerOf(v, w))
  {
  }

  lemma DeliverKeepsView(c: Config, born: map<int, Body>, stream: seq<Copy>, now: int, v: View, w: nat, i: nat)
    requires ViewOk(c, born, stream, now, v)
    ensures ViewOk(c, born, stream, now, WorkerNext(c, v, stream, now, w, Deliver(i)).0)
  {
    var v' := WorkerNext(c, v, stream, now, w, Deliver(i)).0;
    if v' != v {
      var p := ProgressOf(v, i).(deliveries := ProgressOf(v, i).deliveries + 1);
      var v1 := v.(progress := v.progress[i := p]);
      var job := Job(i, stream[i].id, stream[i].body, p.deliveries, now + c.ackWait);
      CountedDeliveryOk(c, born, stream, now, v, i, p);
      assert JobOk(c, stream, job);
      SetWorkerOk(c, born, stream, now, v1, w, Received(job));
      assert v' == SetWorker(v1, w, Received(job));
    }
  }

  lemma CountedDeliveryOk(c: Config, born: map<int, Body>, stream: seq<Copy>, now: int, v: View, i: nat, p: Progress)
    requires ViewOk(c, born, stream, now, v) && i < |stream| && Filtered(c, stream[i].id)
    requires p.fate == Outstanding
    ensures ViewOk(c, born, stream, now, v.(progress := v.progress[i := p]))
  {
    SetProgressOk(c, born, stream, now, v, i, p);
  }

  lemma ClaimEventKeepsView(c: Config, born: map<int, Body>, stream: seq<Copy>, now: int, v: View, w: nat)
    requires ViewOk(c, born, stream, now, v)
    ensures ViewOk(c, born, stream, now, WorkerNext(c, v, stream, now, w, ClaimEvent).0)
  {
    WorkerOkOf(c, born, stream, now, v, w);
    var at := WorkerOf(v, w);
    if at.Begun? && now <= at.job.deadline && !EventHeld(v, at.job.id) {
      var at' := if at.job.id in v.processed then Handled(at.job) else Claimed(at.job, at.since);
      SetWorkerOk(c, born, stream, now, v, w, at');
    }
  }

  lemma CountKeepsView(c: Config, born: map<int, Body>, stream: seq<Copy>, now: int, v: View, w: nat)
    requires ViewOk(c, born, stream, now, v)
    ensures ViewOk(c, born, stream, now, WorkerNext(c, v, stream, now, w, Count).0)
  {
    WorkerOkOf(c, born, stream, now, v, w);
    var at := WorkerOf(v, w);
    if at.Claimed? && WorkerNext(c, v, stream, now, w, Count).0 != v {
      var e := EffectOf(at.job.body);
      var tally := Bump(v.counts, e.tenant, at.job.body.occurredAt);
      SetWorkerOk(c, born, stream, now, v, w, Counted(at.job, at.since, tally));
    }
  }

  /** The commit: the dedup row and the counter appear together, and because no rival holds
      the event or the tenant, what the other workers read before is still right. */
  lemma CommitEventKeepsView(c: Config, born: map<int, Body>, stream: seq<Copy>, now: int, v: View, w: nat, told: bool)
    requires ViewOk(c, born, stream, now, v) && StreamOk(born, stream, now)
    ensures ViewOk(c, born, stream, now, WorkerNext(c, v, stream, now, w, CommitEvent(told)).0)
  {
    var v' := WorkerNext(c, v, stream, now, w, CommitEvent(told)).0;
    if v' != v {
      CommitKeepsHistory(c, born, stream, now, v, w, told);
      CommitKeepsWorkers(c, born, stream, now, v, w, told);
      FatesStay(c, stream, v, v');
    }
  }

  /** The application a commit makes. */
  function Application(at: Worker): Applied
    requires at.Counted? && EffectOf(at.job.body).Apply?
  {
    Applied(at.job.id, at.job.copy, EffectOf(at.job.body).tenant, at.job.body.occurredAt, at.since)
  }

  lemma CommitChanges(c: Config, v: View, stream: seq<Copy>, now: int, w: nat, told: bool)
    requires WorkerNext(c, v, stream, now, w, CommitEvent(told)).0 != v
    ensures var v', at := WorkerNext(c, v, stream, now, w, CommitEvent(told)).0, WorkerOf(v, w);
            && w in v.workers && at.Counted? && EffectOf(at.job.body).Apply? && now <= at.job.deadline
            && v'.applied == v.applied + [Application(at)]
            && v'.processed == v.processed[at.job.id := at.since]
            && v'.counts == v.counts[EffectOf(at.job.body).tenant := at.tally]
            && v'.progress == v.progress
  {
  }

  lemma CommitKeepsHistory(c: Config, born: map<int, Body>, stream: seq<Copy>, now: int, v: View, w: nat, told: bool)
    requires ViewOk(c, born, stream, now, v) && StreamOk(born, stream, now)
    requires WorkerNext(c, v, stream, now, w, CommitEvent(told)).0 != v
    ensures var v' := WorkerNext(c, v, stream, now, w, CommitEvent(told)).0;
            && v.applied <= v'.applied && v'.counts == Project(v'.applied)
            && (forall k :: 0 <= k < |v'.applied| ==> AppliedOk(c, born, now, v'.applied[k]))
            && (forall id :: id in v'.processed ==> WasApplied(v', id))
  {
    var v', at := WorkerNext(c, v, stream, now, w, CommitEvent(told)).0, WorkerOf(v, w);
    CommitChanges(c, v, stream, now, w, told);
    WorkerOkOf(c, born, stream, now, v, w);
    OneMoreApplication(c, born, now, v, v', Application(at));
  }

  /** The counters stay the projection of the history, and processed ids stay in it. */
  lemma OneMoreApplication(c: Config, born: map<int, Body>, now: int, v: View, v': View, e: Applied)
    requires v.counts == Project(v.applied) && AppliedOk(c, born, now, e)
    requires forall k :: 0 <= k < |v.applied| ==> AppliedOk(c, born, now, v.applied[k])
    requires forall id :: id in v.processed ==> WasApplied(v, id)
    requires v'.applied == v.applied + [e] && v'.counts == v.counts[e.tenant := Bump(v.counts, e.tenant, e.occurredAt)]
    requires v'.processed == v.processed[e.id := e.at]
    ensures v'.counts == Project(v'.applied)
    ensures forall k :: 0 <= k < |v'.applied| ==> AppliedOk(c, born, now, v'.applied[k])
    ensures forall id :: id in v'.processed ==> WasApplied(v', id)
  {
    assert v'.applied[..|v'.applied| - 1] == v.applied;
    AppliedStays(v, v');
    forall id | id in v'.processed ensures WasApplied(v', id) {
      if id == e.id {
        assert v'.applied[|v.applied|].id == id;
      } else {
        assert WasApplied(v, id);
      }
    }
  }

  lemma CommitKeepsWorkers(c: Config, born: map<int, Body>, stream: seq<Copy>, now: int, v: View, w: nat, told: bool)
    requires ViewOk(c, born, stream, now, v)
    requires WorkerNext(c, v, stream, now, w, CommitEvent(told)).0 != v
    ensures var v' := WorkerNext(c, v, stream, now, w, CommitEvent(told)).0;
            && (forall u :: u in v'.workers ==> WorkerOk(c, stream, now, v', v'.workers[u]))
            && v'.workers == v.workers[w := v'.workers[w]] && !Holds(v'.workers[w])
  {
    var v', at := WorkerNext(c, v, stream, now, w, CommitEvent(told)).0, WorkerOf(v, w);
    WorkerOkOf(c, born, stream, now, v, w);
    assert v'.applied[|v.applied|].id == at.job.id;
    forall u | u in v'.workers ensures WorkerOk(c, stream, now, v', v'.workers[u]) {
      if u != w {
        RivalsUnaffected(c, born, stream, now, v, w, u, told);
      }
    }
  }

  lemma FatesStay(c: Config, stream: seq<Copy>, v: View, v': View)
    requires v'.progress == v.progress && v.applied <= v'.applied
    requires forall i :: i in v.progress ==> FateOk(c, stream, v, i)
    ensures forall i :: i in v'.progress ==> FateOk(c, stream, v', i)
  {
    AppliedStays(v, v');
    forall i | i in v'.progress ensures FateOk(c, stream, v', i) {
      assert FateOk(c, stream, v, i);
    }
  }

  lemma AppliedStays(v: View, v': View)
    requires v.applied <= v'.applied
    ensures forall id :: WasApplied(v, id) ==> WasApplied(v', id)
  {
    forall id | WasApplied(v, id) ensures WasApplied(v', id) {
      var k :| 0 <= k < |v.applied| && v.applied[k].id == id;
      assert v'.applied[k].id == id;
    }
  }

  lemma RivalsUnaffected(c: Config, born: map<int, Body>, stream: seq<Copy>, now: int, v: View, w: nat, u: nat,
                         told: bool)
    requires ViewOk(c, born, stream, now, v) && u in v.workers && w in v.workers && u != w
    requires v.workers[w].Counted?
    ensures WorkerOk(c, stream, now, WorkerNext(c, v, stream, now, w, CommitEvent(told)).0, v.workers[u])
  {
    var v' := WorkerNext(c, v, stream, now, w, CommitEvent(told)).0;
    assert WorkerOk(c, stream, now, v, v.workers[u]);
    assert WorkerOk(c, stream, now, v, v.workers[w]);
    AppliedStays(v, v');
  }

  lemma SettleKeepsView(c: Config, born: map<int, Body>, stream: seq<Copy>, now: int, v: View, w: nat, fate: Fate,
                        arrives: bool)
    requires ViewOk(c, born, stream, now, v)
    requires var at := WorkerOf(v, w); (at.Handled? && fate == Acked) || (at.Copied? && fate == Terminated)
    ensures ViewOk(c, born, stream, now, Settle(SetWorker(v, w, Free), WorkerOf(v, w).job.copy, fate, arrives))
  {
    WorkerOkOf(c, born, stream, now, v, w);
    var job := WorkerOf(v, w).job;
    var v1 := SetWorker(v, w, Free);
    SetWorkerOk(c, born, stream, now, v, w, Free);
    assert forall id :: WasApplied(v1, id) <==> WasApplied(v, id);
    var p := ProgressOf(v1, job.copy);
    if arrives && p.fate == Outstanding {
      SetProgressOk(c, born, stream, now, v1, job.copy, p.(fate := fate));
    }
  }

  lemma DeadLetterKeepsView(c: Config, born: map<int, Body>, stream: seq<Copy>, now: int, v: View, w: nat,
                            answer: Answer)
    requires ViewOk(c, born, stream, now, v) && StreamOk(born, stream, now)
    ensures var (v', longer) := WorkerNext(c, v, stream, now, w, DeadLetter(answer));
            stream <= longer && ViewOk(c, born, longer, now, v') && StreamOk(born, longer, now)
  {
    WorkerOkOf(c, born, stream, now, v, w);
    var at := WorkerOf(v, w);
    if at.Failed? && (at.permanent || at.job.attempt >= c.maxDeliver) {
      var (v', longer) := WorkerNext(c, v, stream, now, w, DeadLetter(answer));
      StoreIsStored(c, stream, Dead(at.job.id), at.job.body, now);
      assert Has(stream, Live(at.job.id.Row()));
      StoreKeepsStream(c, born, stream, now, Dead(at.job.id), at.job.body);
      ViewOkGrows(c, born, born, stream, longer, now, now, v);
      SetWorkerOk(c, born, longer, now, v, w, v'.workers[w]);
    }
  }

  lemma WorkerKeepsView(c: Config, born: map<int, Body>, stream: seq<Copy>, now: int, v: View, w: nat, step: WorkerStep)
    requires ViewOk(c, born, stream, now, v) && StreamOk(born, stream, now)
    ensures var (v', longer) := WorkerNext(c, v, stream, now, w, step);
            stream <= longer && ViewOk(c, born, longer, now, v') && StreamOk(born, longer, now)
  {
    WorkerOkOf(c, born, stream, now, v, w);
    var at := WorkerOf(v, w);
    match step
    case Deliver(i) => DeliverKeepsView(c, born, stream, now, v, w, i);
    case ClaimEvent => ClaimEventKeepsView(c, born, stream, now, v, w);
    case Count => CountKeepsView(c, born, stream, now, v, w);
    case CommitEvent(told) => CommitEventKeepsView(c, born, stream, now, v, w, told);
    case DeadLetter(answer) => DeadLetterKeepsView(c, born, stream, now, v, w, answer);
    case Ack(arrives) =>
      if at.Handled? {
        SettleKeepsView(c, born, stream, now, v, w, Acked, arrives);
      }
    case Terminate(arrives) =>
      if at.Copied? {
        SettleKeepsView(c, born, stream, now, v, w, Terminated, arrives);
      }
    case _ => OtherStepKeepsView(c, born, stream, now, v, w, step);
  }

  lemma OtherStepKeepsView(c: Config, born: map<int, Body>, stream: seq<Copy>, now: int, v: View, w: nat,
                           step: WorkerStep)
    requires ViewOk(c, born, stream, now, v)
    requires step.Decide? || step.Fail? || step.Die? || step.Nak?
    ensures var (v', longer) := WorkerNext(c, v, stream, now, w, step);
            longer == stream && ViewOk(c, born, stream, now, v')
  {
    WorkerOkOf(c, born, stream, now, v, w);
    OtherStepMoves(c, v, stream, now, w, step);
    var v' := WorkerNext(c, v, stream, now, w, step).0;
    if v' != v {
      var at, at' := WorkerOf(v, w), WorkerOf(v', w);
      assert WorkerOk(c, stream, now, v, at');
      SetWorkerOk(c, born, stream, now, v, w, at');
    }
  }

  lemma OtherStepMoves(c: Config, v: View, stream: seq<Copy>, now: int, w: nat, step: WorkerStep)
    requires step.Decide? || step.Fail? || step.Die? || step.Nak?
    ensures var (v', longer) := WorkerNext(c, v, stream, now, w, step);
            var at, at' := WorkerOf(v, w), WorkerOf(WorkerNext(c, v, stream, now, w, step).0, w);
            && longer == stream
            && (v' == v || v' == SetWorker(v, w, at'))
            && (v' != v ==>
                  || at'.Free?
                  || (at'.Handled? && at'.job == at.job && !at.Free? && EffectOf(at.job.body) == Ignore)
                  || (at'.Failed? && at'.job == at.job && !at.Free?)
                  || (at'.Begun? && at'.job == at.job && !at.Free? && EffectOf(at.job.body).Apply? && at'.since == now))
  {
  }

  /** A step of one worker leaves the others where they are. */
  lemma WorkersMoveAlone(c: Config, v: View, stream: seq<Copy>, now: int, u: nat, step: WorkerStep, w: nat)
    requires u != w
    ensures WorkerOf(WorkerNext(c, v, stream, now, u, step).0, w) == WorkerOf(v, w)
  {
  }

  // ---------- every run ----------

  predicate Inv(c: Config, s: State) {
    && OutboxOk(s.outbox, s.stream)
    && StreamOk(s.outbox.born, s.stream, s.now)
    && ViewOk(c, s.outbox.born, s.stream, s.now, s.view)
  }

  lemma RelayKeepsStream(c: Config, s: State, r: nat, step: RelayStep)
    requires Inv(c, s)
    ensures var (o, longer) := RelayNext(c, s.outbox, s.stream, s.now, r, step);
            o.born == s.outbox.born && StreamOk(o.born, longer, s.now)
  {
    var tx := RelayOf(s.outbox, r);
    if step.Publish? && tx.Open? && tx.acked < |tx.batch| && tx.batch[tx.acked] in s.outbox.rows {
      var id := tx.batch[tx.acked];
      assert RowOk(s.outbox, s.stream, id);
      StoreKeepsStream(c, s.outbox.born, s.stream, s.now, Live(id), s.outbox.rows[id].body);
    }
  }

  lemma StepKeepsInv(c: Config, s: State, a: Action)
    requires Inv(c, s)
    ensures Inv(c, Next(c, s, a))
    ensures s.stream <= Next(c, s, a).stream
  {
    var s' := Next(c, s, a);
    match a
    case Tick => ViewOkGrows(c, s.outbox.born, s.outbox.born, s.stream, s.stream, s.now, s'.now, s.view);
    case RelayDoes(r, step) =>
      RelayKeepsOutbox(c, s.outbox, s.stream, s.now, r, step);
      RelayKeepsStream(c, s, r, step);
      ViewOkGrows(c, s.outbox.born, s'.outbox.born, s.stream, s'.stream, s.now, s.now, s.view);
    case WorkerDoes(w, step) =>
      WorkerKeepsView(c, s.outbox.born, s.stream, s.now, s.view, w, step);
      OutboxOkGrows(s.outbox, s.stream, s'.stream);
    case PruneProcessed(ids) =>
      PruneProcessedKeepsView(c, s, ids);
    case _ =>
      TableStepKeepsOutbox(c, s, a);
      ViewOkGrows(c, s.outbox.born, s'.outbox.born, s.stream, s.stream, s.now, s.now, s.view);
  }

  lemma PruneProcessedKeepsView(c: Config, s: State, ids: set<Id>)
    requires Inv(c, s)
    ensures var s' := Next(c, s, PruneProcessed(ids)); ViewOk(c, s'.outbox.born, s'.stream, s'.now, s'.view)
  {
    var v, v' := s.view, Next(c, s, PruneProcessed(ids)).view;
    assert forall id :: WasApplied(v', id) <==> WasApplied(v, id);
    forall w | w in v'.workers ensures WorkerOk(c, s.stream, s.now, v', v'.workers[w]) {
      assert WorkerOk(c, s.stream, s.now, v, v.workers[w]);
    }
    forall i | i in v'.progress ensures FateOk(c, s.stream, v', i) {
      assert FateOk(c, s.stream, v, i);
      assert ProgressOf(v', i) == ProgressOf(v, i);
    }
  }

  lemma {:induction false} EveryRunKeepsInv(c: Config, s: State, run: seq<Action>)
    requires Inv(c, s)
    ensures Inv(c, Exec(c, s, run))
    ensures s.stream <= Exec(c, s, run).stream
    decreases run
  {
    if run != [] {
      StepKeepsInv(c, s, run[0]);
      EveryRunKeepsInv(c, Next(c, s, run[0]), run[1..]);
    }
  }
}
