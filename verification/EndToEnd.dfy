/** From the service to the read model: the event log that the store writes
    (internal/order/service.go) fed through the outbox pipeline to the projection
    (internal/order/orderproj/orderproj.go). */
module EndToEnd {
  import opened MessageIds
  import opened Results
  import opened Orders
  import opened OrderStore
  import opened Pipeline
  import opened PipelineSteps
  import opened PipelineSafety
  import opened PipelineTheorems
  import opened Sets

  /** What the outbox row of an event carries; the payload is the order. */
  function BodyOf(e: Event): Body {
    Body(e.tenant, e.eventType == OrderCreated, Some(e.order.tenant), e.occurredAt)
  }

  /** Rows are inserted for logged events only, under their position in the log. */
  predicate InsertsFrom(run: seq<Action>, events: seq<Event>) {
    forall k :: 0 <= k < |run| && run[k].Insert? ==> IsRowOf(run[k].id, run[k].body, events)
  }

  predicate IsRowOf(id: int, body: Body, events: seq<Event>) {
    1 <= id <= |events| && body == BodyOf(events[id - 1])
  }

  predicate BornFrom(born: map<int, Body>, events: seq<Event>) {
    forall id :: id in born ==> IsRowOf(id, born[id], events)
  }

  lemma {:induction false} RunKeepsBorn(c: Config, s: Pipeline.State, run: seq<Action>, events: seq<Event>)
    requires BornFrom(s.outbox.born, events) && InsertsFrom(run, events)
    ensures BornFrom(Exec(c, s, run).outbox.born, events)
    decreases run
  {
    if run != [] {
      assert run[0].Insert? ==> IsRowOf(run[0].id, run[0].body, events);
      StepKeepsBorn(c, s, run[0], events);
      assert forall k :: 0 <= k < |run[1..]| ==> run[1..][k] == run[k + 1];
      RunKeepsBorn(c, Next(c, s, run[0]), run[1..], events);
    }
  }

  lemma StepKeepsBorn(c: Config, s: Pipeline.State, a: Action, events: seq<Event>)
    requires BornFrom(s.outbox.born, events) && (a.Insert? ==> IsRowOf(a.id, a.body, events))
    ensures BornFrom(Next(c, s, a).outbox.born, events)
  {
  }

  // ---------- the log and the store ----------

  /** The positions of a tenant's OrderCreated events, counted from 1. */
  function Created(events: seq<Event>, tenant: string): set<int> {
    set id | 1 <= id <= |events| && CreatesAt(events, id, tenant)
  }

  predicate CreatesAt(events: seq<Event>, id: int, tenant: string) {
    1 <= id <= |events| && Creates(events[id - 1], tenant)
  }

  predicate Creates(e: Event, tenant: string) {
    e.eventType == OrderCreated && e.tenant == tenant
  }

  lemma {:induction false} CreatedIsCounted(events: seq<Event>, tenant: string)
    ensures |Created(events, tenant)| == CreatedFor(events, tenant)
    decreases events
  {
    if events == [] {
      assert Created(events, tenant) == {};
    } else {
      var n := |events|;
      var front, e := events[..n - 1], events[n - 1];
      CreatedIsCounted(front, tenant);
      CreatedAtTheEnd(front, e, tenant);
      assert events == front + [e];
    }
  }

  lemma CreatedAtTheEnd(front: seq<Event>, e: Event, tenant: string)
    ensures |Created(front + [e], tenant)| == |Created(front, tenant)| + if Creates(e, tenant) then 1 else 0
  {
    var last := |front| + 1;
    assert forall id :: CreatesAt(front + [e], id, tenant) <==>
                        CreatesAt(front, id, tenant) || (id == last && Creates(e, tenant));
    assert last !in Created(front, tenant);
    if Creates(e, tenant) {
      assert Created(front + [e], tenant) == Created(front, tenant) + {last};
    } else {
      assert Created(front + [e], tenant) == Created(front, tenant);
    }
  }

  /** In every reachable store, the events that count for a tenant are its OrderCreated ones. */
  lemma CountedAreCreated(cmds: seq<Command>, id: int, tenant: string)
    requires 1 <= id <= |RunAll(Empty, cmds).events|
    ensures var events := RunAll(Empty, cmds).events;
            CountsFor(BodyOf(events[id - 1]), tenant) <==> CreatesAt(events, id, tenant)
  {
    LoggedTenantsAreNamed(cmds);
  }

  lemma {:induction false} LoggedTenantsAreNamed(cmds: seq<Command>)
    ensures forall k :: 0 <= k < |RunAll(Empty, cmds).events| ==> RunAll(Empty, cmds).events[k].tenant != ""
    decreases cmds
  {
    if cmds != [] {
      var n := |cmds| - 1;
      LoggedTenantsAreNamed(cmds[..n]);
      RunAllSplits(Empty, cmds);
      LogIsAJournal(cmds[..n]);
      PerformLogs(RunAll(Empty, cmds[..n]), cmds[n]);
      var d, d' := RunAll(Empty, cmds[..n]), RunAll(Empty, cmds);
      if d' != d {
        LoggedIsNamed(d, d', d'.events[|d'.events| - 1]);
      }
    }
  }

  lemma LoggedIsNamed(d: Data, d': Data, e: Event)
    requires Logged(d, d', e)
    ensures d'.events == d.events + [e] && e.tenant != ""
  {
  }

  // ---------- the read model ----------

  /** All of a tenant's OrderCreated events have been processed. */
  predicate CaughtUp(s: Pipeline.State, events: seq<Event>, tenant: string) {
    forall id :: id in Created(events, tenant) ==> Live(id) in s.view.processed
  }

  /** For any calls of the service and any run of the pipeline over the events they logged,
      whatever its relays, redeliveries, failures and crashes: once the projection has caught
      up, a tenant's order count is at least the number of its orders; and unless dead letters
      come back to the consumer it never exceeds them, so that then it equals them. (Without
      pruning of dedup rows; PipelineOnce says when pruning is harmless, and that with dead
      letters coming back the bound does fail.) */
  lemma CountsFollowTheStore(cmds: seq<Command>, c: Config, run: seq<Action>, tenant: string)
    requires InsertsFrom(run, RunAll(Empty, cmds).events)
    requires forall a :: a in run ==> !a.PruneProcessed?
    ensures var d, s := RunAll(Empty, cmds), Exec(c, Start, run);
            && (CaughtUp(s, d.events, tenant) ==> OrdersOf(s.view, tenant) >= |OrdersOfTenant(d, tenant)|)
            && (!c.loops ==> OrdersOf(s.view, tenant) <= |OrdersOfTenant(d, tenant)|)
  {
    var d, s := RunAll(Empty, cmds), Exec(c, Start, run);
    EffectivelyOnce(c, run, tenant);
    EveryRunKeepsInv(c, Start, run);
    RunKeepsBorn(c, Start, run, d.events);
    CreatedEventsCountOrders(cmds, tenant);
    CreatedIsCounted(d.events, tenant);
    ProcessedAreCreated(cmds, c, s, tenant);
    if CaughtUp(s, d.events, tenant) {
      LiveIdsOf(Created(d.events, tenant));
      SubsetSize(LiveIds(Created(d.events, tenant)), ProcessedEvents(s, tenant));
    }
    if !c.loops {
      LiveIdsAreRows(ProcessedEvents(s, tenant));
      SubsetSize(PipelineTheorems.RowsOf(ProcessedEvents(s, tenant)), Created(d.events, tenant));
    }
  }

  function LiveIds(rows: set<int>): set<Id> {
    set row | row in rows :: Live(row)
  }

  lemma LiveIdsOf(rows: set<int>)
    ensures |LiveIds(rows)| == |rows|
  {
    LiveIdsAreRows(LiveIds(rows));
    assert PipelineTheorems.RowsOf(LiveIds(rows)) == rows by {
      forall row | row in rows ensures row in PipelineTheorems.RowsOf(LiveIds(rows)) {
        assert Live(row) in LiveIds(rows) && Live(row).Row() == row;
      }
    }
  }

  lemma ProcessedAreCreated(cmds: seq<Command>, c: Config, s: Pipeline.State, tenant: string)
    requires Inv(c, s) && BornFrom(s.outbox.born, RunAll(Empty, cmds).events)
    ensures var events := RunAll(Empty, cmds).events;
            && (forall id :: id in ProcessedEvents(s, tenant) ==> id.Row() in Created(events, tenant))
            && (!c.loops ==> forall id :: id in ProcessedEvents(s, tenant) ==> id.Live?)
            && (CaughtUp(s, events, tenant) ==> LiveIds(Created(events, tenant)) <= ProcessedEvents(s, tenant))
  {
    var events := RunAll(Empty, cmds).events;
    forall id | id in s.outbox.born
      ensures CountsFor(s.outbox.born[id], tenant) <==> id in Created(events, tenant)
    {
      assert IsRowOf(id, s.outbox.born[id], events);
      CountedAreCreated(cmds, id, tenant);
    }
    forall id | id in s.view.processed ensures id.Row() in s.outbox.born && Filtered(c, id) {
      ProcessedIsBorn(c, s, id);
    }
    if CaughtUp(s, events, tenant) {
      forall row | row in Created(events, tenant) ensures Live(row) in ProcessedEvents(s, tenant) {
        assert Live(row).Row() == row;
      }
    }
  }

  /** Some OrderCreated of the tenant was logged at that time. */
  ghost predicate LoggedAt(events: seq<Event>, tenant: string, at: int) {
    exists id :: CreatesAt(events, id, tenant) && events[id - 1].occurredAt == at
  }

  /** The read model's time of the last order is that of one of the tenant's OrderCreated events,
      and once the projection has caught up none is later. */
  lemma LastOrderFollowsTheStore(cmds: seq<Command>, c: Config, run: seq<Action>, tenant: string)
    requires InsertsFrom(run, RunAll(Empty, cmds).events)
    requires forall a :: a in run ==> !a.PruneProcessed?
    requires tenant in Exec(c, Start, run).view.counts
    ensures var d, s := RunAll(Empty, cmds), Exec(c, Start, run);
            && LoggedAt(d.events, tenant, s.view.counts[tenant].last)
            && (CaughtUp(s, d.events, tenant) ==>
                  forall id :: CreatesAt(d.events, id, tenant) ==>
                    d.events[id - 1].occurredAt <= s.view.counts[tenant].last)
  {
    var d, s := RunAll(Empty, cmds), Exec(c, Start, run);
    EffectivelyOnce(c, run, tenant);
    EveryRunKeepsInv(c, Start, run);
    RunKeepsBorn(c, Start, run, d.events);
    forall k | 0 <= k < |s.view.applied| ensures IsLogged(d.events, s.view.applied[k]) {
      AppliedIsLogged(cmds, c, s, k);
    }
    LastOrderIsLogged(d.events, s, tenant, s.view.counts[tenant].last);
  }

  lemma LastOrderIsLogged(events: seq<Event>, s: Pipeline.State, tenant: string, last: int)
    requires forall k :: 0 <= k < |s.view.applied| ==> IsLogged(events, s.view.applied[k])
    requires IsLatest(s.view.applied, tenant, last)
    requires forall id :: id in s.view.processed ==> WasApplied(s.view, id)
    ensures LoggedAt(events, tenant, last)
    ensures CaughtUp(s, events, tenant) ==>
              forall id :: CreatesAt(events, id, tenant) ==> events[id - 1].occurredAt <= last
  {
    LatestIsLogged(events, s.view, tenant, last);
    if CaughtUp(s, events, tenant) {
      forall id | CreatesAt(events, id, tenant) ensures events[id - 1].occurredAt <= last {
        assert id in Created(events, tenant);
        NoneIsLater(events, s.view, tenant, last, id);
      }
    }
  }

  /** The application is of a logged OrderCreated of its tenant, at its time. */
  predicate IsLogged(events: seq<Event>, e: Applied) {
    CreatesAt(events, e.id.Row(), e.tenant) && events[e.id.Row() - 1].occurredAt == e.occurredAt
  }

  lemma LatestIsLogged(events: seq<Event>, v: View, tenant: string, last: int)
    requires forall k :: 0 <= k < |v.applied| ==> IsLogged(events, v.applied[k])
    requires IsLatest(v.applied, tenant, last)
    ensures LoggedAt(events, tenant, last)
  {
    var k :| 0 <= k < |v.applied| && v.applied[k].tenant == tenant && v.applied[k].occurredAt == last;
    assert IsLogged(events, v.applied[k]);
  }

  lemma NoneIsLater(events: seq<Event>, v: View, tenant: string, last: int, id: int)
    requires forall k :: 0 <= k < |v.applied| ==> IsLogged(events, v.applied[k])
    requires IsLatest(v.applied, tenant, last) && CreatesAt(events, id, tenant) && WasApplied(v, Live(id))
    ensures events[id - 1].occurredAt <= last
  {
    var k :| 0 <= k < |v.applied| && v.applied[k].id == Live(id);
    assert IsLogged(events, v.applied[k]) && Live(id).Row() == id;
  }

  lemma AppliedIsLogged(cmds: seq<Command>, c: Config, s: Pipeline.State, k: int)
    requires Inv(c, s) && BornFrom(s.outbox.born, RunAll(Empty, cmds).events) && 0 <= k < |s.view.applied|
    ensures IsLogged(RunAll(Empty, cmds).events, s.view.applied[k])
  {
    var events, e := RunAll(Empty, cmds).events, s.view.applied[k];
    assert AppliedOk(c, s.outbox.born, s.now, e);
    assert IsRowOf(e.id.Row(), s.outbox.born[e.id.Row()], events);
    WhatEventsAre(s.outbox.born[e.id.Row()]);
    CountedAreCreated(cmds, e.id.Row(), e.tenant);
  }
}
