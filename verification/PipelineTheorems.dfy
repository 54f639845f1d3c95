/** The guarantees of the pipeline, over every run from an empty system: any number of
    relays and workers, redeliveries, lost acknowledgements, failed commits and crashes. */
module PipelineTheorems {
  import opened Results
  import opened MessageIds
  import opened Pipeline
  import opened PipelineSteps
  import opened PipelineSafety
  import opened Sets

  // ---------- no lost events ----------

  /** Open claims are pairwise disjoint, and so is publication from quarantine; a published
      row has a stored copy; and every event ever committed is still in the table or is on
      the stream, whatever the relays and the pruner did. */
  lemma NoLostEvents(c: Config, run: seq<Action>)
    ensures var s := Exec(c, Start, run);
            && (forall r, q :: r != q && RelayOf(s.outbox, r).Open? && RelayOf(s.outbox, q).Open? ==>
                  Disjoint(RelayOf(s.outbox, r).batch, RelayOf(s.outbox, q).batch))
            && (forall id :: id in s.outbox.rows && s.outbox.rows[id].publishedAt.Some? ==>
                  Has(s.stream, Live(id)) && s.outbox.rows[id].failedAt.None?)
            && (forall id :: id in s.outbox.born ==> id in s.outbox.rows || Has(s.stream, Live(id)))
  {
    EveryRunKeepsInv(c, Start, run);
    var s := Exec(c, Start, run);
    forall id | id in s.outbox.rows ensures RowOk(s.outbox, s.stream, id) {
    }
  }

  /** markPublished's own check cannot fail: when a claim is open, every claimed row is
      still there, pending, so the UPDATE matches as many rows as were claimed. */
  lemma MarkedMatchesClaimed(c: Config, run: seq<Action>, r: nat)
    requires RelayOf(Exec(c, Start, run).outbox, r).Open?
    ensures var s := Exec(c, Start, run);
            var batch := RelayOf(s.outbox, r).batch;
            |set id | id in s.outbox.rows && id in batch| == |batch|
  {
    EveryRunKeepsInv(c, Start, run);
    var s := Exec(c, Start, run);
    var tx := RelayOf(s.outbox, r);
    assert ClaimOk(s.outbox, s.stream, tx);
    AscendingIsDistinct(tx.batch);
    assert (set id | id in s.outbox.rows && id in tx.batch) == (set id | id in tx.batch);
  }

  lemma {:induction false} AscendingIsDistinct(ids: seq<int>)
    requires Ascending(ids)
    ensures |set id | id in ids| == |ids|
  {
    if ids != [] {
      var tail := ids[1..];
      AscendingIsDistinct(tail);
      assert (set id | id in ids) == {ids[0]} + (set id | id in tail);
    }
  }

  // ---------- the fate of a message ----------

  /** In every run a message is acknowledged only after its handler succeeded (it was
      applied, or is of a type nobody counts; an OrderCreated that does not decode or names no
      tenant never is) and terminated only after its dead letter, with the same body, is
      stored. */
  lemma DeadLetterDiscipline(c: Config, run: seq<Action>, i: nat)
    ensures var s := Exec(c, Start, run);
            var fate := ProgressOf(s.view, i).fate;
            && (fate != Outstanding ==> i < |s.stream| && Filtered(c, s.stream[i].id))
            && (fate == Acked ==> !s.stream[i].body.created || WasApplied(s.view, s.stream[i].id))
            && (fate == Acked ==> !Unusable(s.stream[i].body))
            && (fate == Terminated ==>
                  exists j :: 0 <= j < |s.stream| && s.stream[j].id == Dead(s.stream[i].id)
                              && s.stream[j].body == s.stream[i].body)
  {
    EveryRunKeepsInv(c, Start, run);
    var s := Exec(c, Start, run);
    if i in s.view.progress {
      assert FateOk(c, s.stream, s.view, i);
      IgnoredIsNoOrder(s.stream[i].body);
      OnlyUsableIsApplied(c, s, i);
      if s.view.progress[i].fate == Terminated {
        DeadLetterCarriesBody(c, s, i);
      }
    }
  }

  lemma IgnoredIsNoOrder(b: Body)
    ensures EffectOf(b) == Ignore ==> !b.created
  {
    WhatEventsAre(b);
  }

  lemma OnlyUsableIsApplied(c: Config, s: State, i: nat)
    requires Inv(c, s) && i < |s.stream|
    ensures WasApplied(s.view, s.stream[i].id) ==> !Unusable(s.stream[i].body)
  {
    if WasApplied(s.view, s.stream[i].id) {
      var k :| 0 <= k < |s.view.applied| && s.view.applied[k].id == s.stream[i].id;
      assert AppliedOk(c, s.outbox.born, s.now, s.view.applied[k]);
      WhatEventsAre(s.stream[i].body);
    }
  }

  lemma DeadLetterCarriesBody(c: Config, s: State, i: nat)
    requires StreamOk(s.outbox.born, s.stream, s.now) && i < |s.stream| && Has(s.stream, Dead(s.stream[i].id))
    ensures exists j :: 0 <= j < |s.stream| && s.stream[j].id == Dead(s.stream[i].id)
                        && s.stream[j].body == s.stream[i].body
  {
    var j :| 0 <= j < |s.stream| && s.stream[j].id == Dead(s.stream[i].id);
    assert s.stream[j].body == s.outbox.born[s.stream[j].id.Row()];
    assert s.stream[i].body == s.outbox.born[s.stream[i].id.Row()];
  }

  lemma AppliedGrows(c: Config, v: View, stream: seq<Copy>, now: int, w: nat, step: WorkerStep)
    ensures var v' := WorkerNext(c, v, stream, now, w, step).0;
            v.applied <= v'.applied && forall id :: WasApplied(v, id) ==> WasApplied(v', id)
  {
    var v' := WorkerNext(c, v, stream, now, w, step).0;
    assert v.applied <= v'.applied;
    AppliedStays(v, v');
  }

  // ---------- effectively once ----------

  predicate Distinct(applied: seq<Applied>) {
    forall i, j :: 0 <= i < j < |applied| ==> applied[i].id != applied[j].id
  }

  predicate Remembers(v: View) {
    forall k :: 0 <= k < |v.applied| ==> v.applied[k].id in v.processed
  }

  lemma StepKeepsOnce(c: Config, s: State, a: Action)
    requires Inv(c, s) && Distinct(s.view.applied) && Remembers(s.view)
    requires !a.PruneProcessed?
    ensures Distinct(Next(c, s, a).view.applied) && Remembers(Next(c, s, a).view)
  {
    var v, v' := s.view, Next(c, s, a).view;
    if a.WorkerDoes? {
      WorkerOkOf(c, s.outbox.born, s.stream, s.now, v, a.w);
      OnlyCommitsApply(c, v, s.stream, s.now, a.w, a.workerStep);
      if v'.applied != v.applied {
        OneMoreOnce(v, v', WorkerOf(v, a.w).job.id);
      }
    } else {
      assert v'.applied == v.applied && v'.processed == v.processed;
    }
  }

  lemma OneMoreOnce(v: View, v': View, id: Id)
    requires Distinct(v.applied) && Remembers(v) && id !in v.processed
    requires |v'.applied| == |v.applied| + 1 && v'.applied[..|v.applied|] == v.applied
    requires v'.applied[|v.applied|].id == id
    requires v'.processed.Keys == v.processed.Keys + {id}
    ensures Distinct(v'.applied) && Remembers(v')
  {
    assert forall k :: 0 <= k < |v.applied| ==> v'.applied[k] == v.applied[k];
  }

  lemma OnlyCommitsApply(c: Config, v: View, stream: seq<Copy>, now: int, w: nat, step: WorkerStep)
    ensures var v' := WorkerNext(c, v, stream, now, w, step).0;
            var at := WorkerOf(v, w);
            if step.CommitEvent? && at.Counted? && v' != v then
              && v'.processed == v.processed[at.job.id := at.since]
              && |v'.applied| == |v.applied| + 1 && v'.applied[..|v.applied|] == v.applied
              && v'.applied[|v.applied|].id == at.job.id && v'.applied[|v.applied|].at == at.since
            else
              v'.processed == v.processed && v'.applied == v.applied
  {
  }

  lemma {:induction false} RunKeepsOnce(c: Config, s: State, run: seq<Action>)
    requires Inv(c, s) && Distinct(s.view.applied) && Remembers(s.view)
    requires forall a :: a in run ==> !a.PruneProcessed?
    ensures var t := Exec(c, s, run); Inv(c, t) && Distinct(t.view.applied) && Remembers(t.view)
    decreases run
  {
    if run != [] {
      StepKeepsInv(c, s, run[0]);
      StepKeepsOnce(c, s, run[0]);
      RunKeepsOnce(c, Next(c, s, run[0]), run[1..]);
    }
  }

  /** The messages applied for a tenant, and what the projection says about them. */
  function IdsOf(applied: seq<Applied>, tenant: string): set<Id> {
    set k | 0 <= k < |applied| && applied[k].tenant == tenant :: applied[k].id
  }

  predicate IsLatest(applied: seq<Applied>, tenant: string, at: int) {
    && (exists k :: 0 <= k < |applied| && applied[k].tenant == tenant && applied[k].occurredAt == at)
    && (forall k :: 0 <= k < |applied| && applied[k].tenant == tenant ==> applied[k].occurredAt <= at)
  }

  lemma LastRow(applied: seq<Applied>, tenant: string)
    requires applied != []
    ensures var front, e := applied[..|applied| - 1], applied[|applied| - 1];
            IdsOf(applied, tenant) == IdsOf(front, tenant) + if e.tenant == tenant then {e.id} else {}
  {
    var front, e := applied[..|applied| - 1], applied[|applied| - 1];
    forall id | id in IdsOf(front, tenant) + if e.tenant == tenant then {e.id} else {}
      ensures id in IdsOf(applied, tenant)
    {
      if id in IdsOf(front, tenant) {
        var k :| 0 <= k < |front| && front[k].tenant == tenant && front[k].id == id;
        assert applied[k].id == id;
      } else {
        assert applied[|applied| - 1].id == id;
      }
    }
  }

  lemma {:induction false} ProjectCounts(applied: seq<Applied>, tenant: string)
    requires Distinct(applied)
    ensures tenant in Project(applied) <==> IdsOf(applied, tenant) != {}
    ensures tenant in Project(applied) ==> Project(applied)[tenant].orders == |IdsOf(applied, tenant)|
    decreases applied
  {
    if applied != [] {
      var front, e := applied[..|applied| - 1], applied[|applied| - 1];
      ProjectCounts(front, tenant);
      LastRow(applied, tenant);
      assert e.id !in IdsOf(front, tenant);
    }
  }

  lemma {:induction false} ProjectLatest(applied: seq<Applied>, tenant: string)
    ensures if tenant in Project(applied) then IsLatest(applied, tenant, Project(applied)[tenant].last)
            else forall k :: 0 <= k < |applied| ==> applied[k].tenant != tenant
    decreases applied
  {
    if applied != [] {
      var n := |applied| - 1;
      var front := applied[..n];
      ProjectLatest(front, tenant);
      assert forall k :: 0 <= k < n ==> applied[k] == front[k];
      if tenant in Project(front) {
        var k :| 0 <= k < n && front[k].tenant == tenant && front[k].occurredAt == Project(front)[tenant].last;
        assert applied[k].tenant == tenant && applied[k].occurredAt == Project(front)[tenant].last;
      }
      if applied[n].tenant == tenant {
        assert applied[n].occurredAt == applied[n].occurredAt;
      }
    }
  }

  function OrdersOf(v: View, tenant: string): int {
    if tenant in v.counts then v.counts[tenant].orders else 0
  }

  /** The distinct processed message ids of a tenant's events, and its committed OrderCreated
      rows. */
  function ProcessedEvents(s: State, tenant: string): set<Id> {
    set id | id in s.view.processed && id.Row() in s.outbox.born && CountsFor(s.outbox.born[id.Row()], tenant)
  }

  function CommittedEvents(s: State, tenant: string): set<int> {
    set row | row in s.outbox.born && CountsFor(s.outbox.born[row], tenant)
  }

  /** Effectively once: while no dedup row is pruned, a tenant's counter is the number of its
      distinct processed message ids, each of a committed OrderCreated; no message id is
      counted twice. Unless dead letters come back to the consumer, these are the ids of
      rows, so that the counter never exceeds the committed events. */
  lemma EffectivelyOnce(c: Config, run: seq<Action>, tenant: string)
    requires forall a :: a in run ==> !a.PruneProcessed?
    ensures var s := Exec(c, Start, run);
            && Distinct(s.view.applied)
            && OrdersOf(s.view, tenant) == |ProcessedEvents(s, tenant)|
            && (forall id :: id in ProcessedEvents(s, tenant) ==> id.Row() in CommittedEvents(s, tenant))
            && (!c.loops ==> OrdersOf(s.view, tenant) <= |CommittedEvents(s, tenant)|)
            && (tenant in s.view.counts ==> IsLatest(s.view.applied, tenant, s.view.counts[tenant].last))
  {
    RunKeepsOnce(c, Start, run);
    var s := Exec(c, Start, run);
    ProjectCounts(s.view.applied, tenant);
    ProjectLatest(s.view.applied, tenant);
    AppliedRowsAreProcessed(c, s, tenant);
    if !c.loops {
      forall id | id in ProcessedEvents(s, tenant) ensures id.Live? {
        ProcessedIsBorn(c, s, id);
      }
      LiveIdsAreRows(ProcessedEvents(s, tenant));
      SubsetSize(RowsOf(ProcessedEvents(s, tenant)), CommittedEvents(s, tenant));
    }
  }

  function RowsOf(ids: set<Id>): set<int> {
    set id | id in ids :: id.Row()
  }

  lemma {:induction false} LiveIdsAreRows(ids: set<Id>)
    requires forall id :: id in ids ==> id.Live?
    ensures |RowsOf(ids)| == |ids|
    decreases |ids|
  {
    if ids != {} {
      var id :| id in ids;
      var rest := ids - {id};
      LiveIdsAreRows(rest);
      assert ids == rest + {id};
      assert RowsOf(ids) == RowsOf(rest) + {id.Row()};
      assert id.Row() !in RowsOf(rest);
    } else {
      assert RowsOf(ids) == {};
    }
  }

  lemma AppliedRowsAreProcessed(c: Config, s: State, tenant: string)
    requires Inv(c, s) && Remembers(s.view)
    ensures IdsOf(s.view.applied, tenant) == ProcessedEvents(s, tenant)
  {
    var applied := s.view.applied;
    forall id | id in IdsOf(applied, tenant) ensures id in ProcessedEvents(s, tenant) {
      var k :| 0 <= k < |applied| && applied[k].tenant == tenant && applied[k].id == id;
      assert AppliedOk(c, s.outbox.born, s.now, applied[k]);
    }
    forall id | id in ProcessedEvents(s, tenant) ensures id in IdsOf(applied, tenant) {
      assert WasApplied(s.view, id);
      var k :| 0 <= k < |applied| && applied[k].id == id;
      assert AppliedOk(c, s.outbox.born, s.now, applied[k]);
    }
  }

  /** The same messages have been processed, and they carry the same events. */
  predicate SameProcessed(s: State, t: State) {
    && s.view.processed.Keys == t.view.processed.Keys
    && forall id :: id in s.view.processed && id.Row() in s.outbox.born && id.Row() in t.outbox.born ==>
         s.outbox.born[id.Row()] == t.outbox.born[id.Row()]
  }

  /** The read model depends only on which messages were applied, not on their order, their
      multiplicity, or anything else about the two runs. */
  lemma SameEventsSameCounts(c: Config, run: seq<Action>, c': Config, run': seq<Action>)
    requires forall a :: a in run ==> !a.PruneProcessed?
    requires forall a :: a in run' ==> !a.PruneProcessed?
    requires var s, t := Exec(c, Start, run), Exec(c', Start, run');
             SameProcessed(s, t)
    ensures Exec(c, Start, run).view.counts == Exec(c', Start, run').view.counts
  {
    RunKeepsOnce(c, Start, run);
    RunKeepsOnce(c', Start, run');
    CountsAgree(c, Exec(c, Start, run), c', Exec(c', Start, run'));
  }

  lemma CountsAgree(c: Config, s: State, c': Config, t: State)
    requires Inv(c, s) && Remembers(s.view) && Distinct(s.view.applied)
    requires Inv(c', t) && Remembers(t.view) && Distinct(t.view.applied)
    requires SameProcessed(s, t)
    ensures s.view.counts == t.view.counts
  {
    forall tenant: string
      ensures tenant in s.view.counts <==> tenant in t.view.counts
      ensures tenant in s.view.counts ==> s.view.counts[tenant] == t.view.counts[tenant]
    {
      TenantAgrees(c, s, c', t, tenant);
    }
  }

  lemma TenantAgrees(c: Config, s: State, c': Config, t: State, tenant: string)
    requires Inv(c, s) && Remembers(s.view) && Distinct(s.view.applied)
    requires Inv(c', t) && Remembers(t.view) && Distinct(t.view.applied)
    requires SameProcessed(s, t)
    ensures tenant in s.view.counts <==> tenant in t.view.counts
    ensures tenant in s.view.counts ==> s.view.counts[tenant] == t.view.counts[tenant]
  {
    ProjectCounts(s.view.applied, tenant);
    ProjectCounts(t.view.applied, tenant);
    EventsAgree(c, s, c', t, tenant);
    EventsAgree(c', t, c, s, tenant);
    if tenant in s.view.counts {
      LatestAgrees(s.view.applied, t.view.applied, tenant);
      LatestAgrees(t.view.applied, s.view.applied, tenant);
    }
  }

  lemma LatestAgrees(a: seq<Applied>, b: seq<Applied>, tenant: string)
    requires tenant in Project(a) && tenant in Project(b)
    requires Mirrors(a, b, tenant)
    ensures Project(a)[tenant].last <= Project(b)[tenant].last
  {
    ProjectLatest(a, tenant);
    ProjectLatest(b, tenant);
    var k :| 0 <= k < |a| && a[k].tenant == tenant && a[k].occurredAt == Project(a)[tenant].last;
    assert AppliedAt(b, tenant, a[k].occurredAt);
    var m :| 0 <= m < |b| && b[m].tenant == tenant && b[m].occurredAt == a[k].occurredAt;
  }

  /** Every time a tenant has an event in a, it has one at the same time in b. */
  predicate Mirrors(a: seq<Applied>, b: seq<Applied>, tenant: string) {
    forall k :: 0 <= k < |a| && a[k].tenant == tenant ==> AppliedAt(b, tenant, a[k].occurredAt)
  }

  predicate AppliedAt(b: seq<Applied>, tenant: string, at: int) {
    exists m :: 0 <= m < |b| && b[m].tenant == tenant && b[m].occurredAt == at
  }

  /** Everything one run applied for a tenant, the other applied too. */
  lemma EventsAgree(c: Config, s: State, c': Config, t: State, tenant: string)
    requires Inv(c, s) && Remembers(s.view) && Inv(c', t) && Remembers(t.view)
    requires SameProcessed(s, t)
    ensures IdsOf(s.view.applied, tenant) == IdsOf(t.view.applied, tenant)
    ensures Mirrors(s.view.applied, t.view.applied, tenant)
  {
    AppliedRowsAreProcessed(c, s, tenant);
    AppliedRowsAreProcessed(c', t, tenant);
    forall id | id in s.view.processed ensures id.Row() in s.outbox.born && id.Row() in t.outbox.born {
      ProcessedIsBorn(c, s, id);
      ProcessedIsBorn(c', t, id);
    }
    assert ProcessedEvents(s, tenant) == ProcessedEvents(t, tenant);
    forall k | 0 <= k < |s.view.applied| && s.view.applied[k].tenant == tenant
      ensures AppliedAt(t.view.applied, tenant, s.view.applied[k].occurredAt)
    {
      assert s.view.applied[k].id in IdsOf(s.view.applied, tenant);
      SameTime(c, s, c', t, tenant, k);
    }
  }

  lemma SameTime(c: Config, s: State, c': Config, t: State, tenant: string, k: int)
    requires Inv(c, s) && Inv(c', t) && SameProcessed(s, t) && Remembers(s.view)
    requires 0 <= k < |s.view.applied| && s.view.applied[k].id in IdsOf(t.view.applied, tenant)
    ensures AppliedAt(t.view.applied, tenant, s.view.applied[k].occurredAt)
  {
    var m :| 0 <= m < |t.view.applied| && t.view.applied[m].tenant == tenant
             && t.view.applied[m].id == s.view.applied[k].id;
    assert AppliedOk(c, s.outbox.born, s.now, s.view.applied[k]);
    assert AppliedOk(c', t.outbox.born, t.now, t.view.applied[m]);
  }

  lemma ProcessedIsBorn(c: Config, s: State, id: Id)
    requires Inv(c, s) && id in s.view.processed
    ensures id.Row() in s.outbox.born && Filtered(c, id)
  {
    assert WasApplied(s.view, id);
    var k :| 0 <= k < |s.view.applied| && s.view.applied[k].id == id;
    assert AppliedOk(c, s.outbox.born, s.now, s.view.applied[k]);
  }
}
