/** What the single steps do, in the terms of the tables, the stream and the messages: the
    facts that the methods of Drain and Prune and the theorems about runs are stated with. */
module PipelineSteps {
  import opened Results
  import opened MessageIds
  import opened Pipeline

  // ---------- the outbox table ----------

  /** Exactly the rows of the batch are marked published, at that instant; nothing else of them
      and no other row is different. */
  predicate Marks(rows: map<int, Row>, rows': map<int, Row>, batch: seq<int>, at: int) {
    && rows'.Keys == rows.Keys
    && forall id :: id in rows ==>
         if id in batch then
           rows'[id].publishedAt == Some(at) && rows'[id].body == rows[id].body
           && rows'[id].failedAt == rows[id].failedAt
         else rows'[id] == rows[id]
  }

  /** Exactly that row is set aside, at that instant. */
  predicate SetsAside(rows: map<int, Row>, rows': map<int, Row>, bad: int, at: int) {
    && rows'.Keys == rows.Keys && bad in rows
    && (forall id :: id in rows && id != bad ==> rows'[id] == rows[id])
    && rows'[bad].failedAt == Some(at) && rows'[bad].publishedAt == rows[bad].publishedAt
    && rows'[bad].body == rows[bad].body
  }

  lemma StampMarks(rows: map<int, Row>, batch: seq<int>, at: int)
    ensures Marks(rows, Stamp(rows, batch, at), batch, at)
  {
  }

  /** The claim sees the rows that are neither published nor set aside nor held by another. */
  lemma WhatIsClaimable(o: Outbox, id: int)
    ensures id in Claimable(o) <==>
              && id in o.rows && o.rows[id].publishedAt == None && o.rows[id].failedAt == None
              && forall r :: r in o.relays && o.relays[r].Open? ==> id !in o.relays[r].batch
  {
  }

  /** An insert adds one pending row, and a replay lets go of one that was set aside. */
  lemma WhatInsertsAndReplaysDo(c: Config, s: State, id: int, body: Body)
    ensures var s' := Next(c, s, Insert(id, body));
            if 0 < id && id !in s.outbox.born then
              && s'.outbox.rows == s.outbox.rows[id := s'.outbox.rows[id]] && s'.outbox.rows[id].body == body
              && s'.outbox.rows[id].publishedAt == None && s'.outbox.rows[id].failedAt == None
              && s' == s.(outbox := s'.outbox)
            else s' == s
    ensures var s' := Next(c, s, Replay(id));
            && s'.outbox.rows.Keys == s.outbox.rows.Keys && s' == s.(outbox := s.outbox.(rows := s'.outbox.rows))
            && (forall other :: other in s.outbox.rows && other != id ==> s'.outbox.rows[other] == s.outbox.rows[other])
            && (id in s.outbox.rows ==>
                  && s'.outbox.rows[id].body == s.outbox.rows[id].body
                  && s'.outbox.rows[id].publishedAt == s.outbox.rows[id].publishedAt
                  && (Locked(s.outbox, id) ==> s'.outbox.rows[id] == s.outbox.rows[id])
                  && (!Locked(s.outbox, id) ==> s'.outbox.rows[id].failedAt == None))
  {
  }

  /** A prune takes rows that were published, or messages that were processed, before the cutoff
      only, each as it is named; it changes nothing else. */
  lemma WhatPrunesDo(c: Config, s: State, ids: set<int>, messages: set<Id>)
    ensures var s' := Next(c, s, PruneOutbox(ids));
            && s' == s.(outbox := s.outbox.(rows := s'.outbox.rows)) && s'.outbox.rows.Keys <= s.outbox.rows.Keys
            && (forall id :: id in s'.outbox.rows ==> s'.outbox.rows[id] == s.outbox.rows[id])
            && (forall id :: id in s.outbox.rows ==>
                  (id !in s'.outbox.rows <==>
                    id in ids && s.outbox.rows[id].publishedAt.Some?
                    && s.outbox.rows[id].publishedAt.value < s.now - c.keepOutbox))
    ensures var s' := Next(c, s, PruneProcessed(messages));
            && s' == s.(view := s.view.(processed := s'.view.processed))
            && s'.view.processed.Keys <= s.view.processed.Keys
            && (forall id :: id in s'.view.processed ==> s'.view.processed[id] == s.view.processed[id])
            && (forall id :: id in s.view.processed ==>
                  (id !in s'.view.processed <==> id in messages && s.view.processed[id] < s.now - c.keepProcessed))
  {
  }

  // ---------- the stream ----------

  /** A publish that takes effect leaves exactly one copy under its id within the window, and
      never changes or reorders what is there. */
  lemma WhatStoringDoes(c: Config, stream: seq<Copy>, id: Id, body: Body, now: int)
    ensures var longer := Store(c, stream, id, body, now);
            if exists j :: 0 <= j < |stream| && stream[j].id == id && now - stream[j].storedAt < c.window then
              longer == stream
            else
              && |longer| == |stream| + 1 && longer[..|stream|] == stream
              && longer[|stream|].id == id && longer[|stream|].body == body && longer[|stream|].storedAt == now
  {
  }

  // ---------- the events ----------

  /** An OrderCreated that nobody can ever count: it does not decode, or names no tenant. */
  predicate Unusable(b: Body) {
    b.created && (b.snapshot.None? || (b.tenant == "" && b.snapshot.value == ""))
  }

  /** An OrderCreated that counts for that tenant: the header's, or the payload's exactly if the
      header names none. */
  predicate CountsFor(b: Body, tenant: string) {
    && b.created && b.snapshot.Some? && tenant != ""
    && tenant == if b.tenant == "" then b.snapshot.value else b.tenant
  }

  /** Every event is of no interest, unusable, or counts for one tenant. */
  lemma WhatEventsAre(b: Body)
    ensures EffectOf(b) == Ignore <==> !b.created
    ensures EffectOf(b) == Refuse <==> Unusable(b)
    ensures forall tenant :: EffectOf(b) == Apply(tenant) <==> CountsFor(b, tenant)
    ensures EffectOf(b).Apply? ==> CountsFor(b, EffectOf(b).tenant)
  {
  }

  /** One tenant's counter is one higher, and its time the later of the two; no other counter is
      different. */
  predicate Raises(counts: map<string, Tally>, counts': map<string, Tally>, tenant: string, at: int) {
    && counts'.Keys == counts.Keys + {tenant}
    && (forall t :: t in counts && t != tenant ==> counts'[t] == counts[t])
    && if tenant in counts then
         && counts'[tenant].orders == counts[tenant].orders + 1
         && counts'[tenant].last >= at && counts'[tenant].last >= counts[tenant].last
         && (counts'[tenant].last == at || counts'[tenant].last == counts[tenant].last)
       else counts'[tenant].orders == 1 && counts'[tenant].last == at
  }

  lemma BumpRaises(counts: map<string, Tally>, tenant: string, at: int)
    ensures Raises(counts, counts[tenant := Bump(counts, tenant, at)], tenant, at)
  {
  }

  /** The broker's record of a message changes only when an acknowledgement of it arrives for
      the first time. */
  lemma WhatAcknowledgementsDo(c: Config, s: State, w: nat, arrives: bool)
    requires !WorkerOf(s.view, w).Free?
    ensures WorkerOf(s.view, w).Handled? ==>
              Next(c, s, WorkerDoes(w, Ack(arrives))).view ==
              Acknowledged(s.view, w, arrives, Acked)
    ensures WorkerOf(s.view, w).Copied? ==>
              Next(c, s, WorkerDoes(w, Terminate(arrives))).view ==
              Acknowledged(s.view, w, arrives, Terminated)
  {
  }

  function Acknowledged(v: View, w: nat, arrives: bool, fate: Fate): View
    requires !WorkerOf(v, w).Free?
  {
    var i := WorkerOf(v, w).job.copy;
    var v' := v.(workers := v.workers[w := Free]);
    if arrives && ProgressOf(v, i).fate == Outstanding then
      v'.(progress := v.progress[i := Progress(ProgressOf(v, i).deliveries, fate)])
    else v'
  }
}
