/** The transactional outbox pipeline as a step system: any number of relays
    (internal/platform/outbox/relay.go), the broker's stream (events/publisher.go), any
    number of workers (events/consumer.go running orderproj.go), and the pruner
    (outbox/prune.go). Each statement, acknowledgement, failure and crash is one step, and a
    run is any sequence of steps by anyone.

    Assumed of Postgres: row locks are held until commit or rollback; a statement that waited
    for a lock re-reads the row (so it can be modelled as happening when the lock is free);
    ON CONFLICT waits for an uncommitted rival; now() is the start of the transaction.
    Assumed of JetStream: a message id is remembered for the duplicate window; a message may
    be redelivered at any moment, up to MaxDeliver times, until it is older than MaxAge; a
    handler is called when its message is delivered.

    The consumer filters its subject prefix. Whether a dead letter matches that filter, and so
    comes back, depends on the two prefixes alone (Subjects.Loops, by Subjects.DeadLetterLoop), not on the
    message: it is the setting `loops`. */
module Pipeline {
  import opened Results
  import opened MessageIds
  import opened Sets

  datatype Config = Config(batch: nat, window: int, maxAge: int, ackWait: int, maxDeliver: nat,
                           keepOutbox: int, keepProcessed: int, loops: bool)

  // ---------- the outbox table and the relays ----------

  /** One event: its tenant, whether it is an OrderCreated, and the tenant inside its payload
      (None when the payload does not decode). */
  datatype Body = Body(tenant: string, created: bool, snapshot: Option<string>, occurredAt: int)

  datatype Row = Row(body: Body, publishedAt: Option<int>, failedAt: Option<int>)
  {
    /** The claim query's WHERE. */
    predicate Pending() {
      publishedAt.None? && failedAt.None?
    }
  }

  /** A relay between drains, inside its claim transaction, or after rolling back because
      the row `row` can never be published. */
  datatype Relay =
    | Idle
    | Open(batch: seq<int>, acked: nat, marked: bool, since: int)
    | Rejected(row: int)

  /** `born` remembers every committed insert; `rows` is what the table holds now. */
  datatype Outbox = Outbox(rows: map<int, Row>, born: map<int, Body>, relays: map<nat, Relay>)

  function RelayOf(o: Outbox, r: nat): Relay {
    if r in o.relays then o.relays[r] else Idle
  }

  predicate Locked(o: Outbox, id: int) {
    exists r :: r in o.relays && o.relays[r].Open? && id in o.relays[r].batch
  }

  /** What FOR UPDATE SKIP LOCKED can see. */
  function Claimable(o: Outbox): set<int> {
    set id | id in o.rows && o.rows[id].Pending() && !Locked(o, id)
  }

  lemma LeastOf(ids: set<int>) returns (m: int)
    requires ids != {}
    ensures m in ids
    ensures forall x :: x in ids ==> m <= x
  {
    Inhabited(ids);
    var first :| first in ids;
    var rest := ids - {first};
    assert ids == rest + {first};
    m := first;
    if rest != {} {
      var least := LeastOf(rest);
      m := if least < first then least else first;
    }
  }

  lemma LeastExists(ids: set<int>)
    requires ids != {}
    ensures exists m :: m in ids && forall x :: x in ids ==> m <= x
  {
    var m := LeastOf(ids);
  }

  function Least(ids: set<int>): (m: int)
    requires ids != {}
    ensures m in ids && forall x :: x in ids ==> m <= x
  {
    LeastExists(ids);
    var m :| m in ids && forall x :: x in ids ==> m <= x;
    m
  }

  /** ORDER BY id LIMIT n. */
  function FirstIds(ids: set<int>, n: nat): seq<int>
    decreases n
  {
    if n == 0 || ids == {} then [] else [Least(ids)] + FirstIds(ids - {Least(ids)}, n - 1)
  }

  function Stamp(rows: map<int, Row>, ids: seq<int>, at: int): map<int, Row> {
    map id | id in rows :: if id in ids then rows[id].(publishedAt := Some(at)) else rows[id]
  }

  // ---------- the stream and its durable consumer ----------

  datatype Copy = Copy(id: Id, body: Body, storedAt: int)

  /** The consumer's filter lets the message through. */
  predicate Filtered(c: Config, id: Id) {
    id.Live? || c.loops
  }

  datatype Fate = Outstanding | Acked | Terminated

  datatype Progress = Progress(deliveries: nat, fate: Fate)

  predicate Remembered(c: Config, stream: seq<Copy>, id: Id, now: int) {
    exists j :: 0 <= j < |stream| && stream[j].id == id && now < stream[j].storedAt + c.window
  }

  /** The server's side of a publish: store, unless the id is still remembered. */
  function Store(c: Config, stream: seq<Copy>, id: Id, body: Body, now: int): seq<Copy> {
    if Remembered(c, stream, id, now) then stream else stream + [Copy(id, body, now)]
  }

  predicate Has(stream: seq<Copy>, id: Id) {
    exists j :: 0 <= j < |stream| && stream[j].id == id
  }

  // ---------- the projection and its workers ----------

  datatype Effect = Ignore | Refuse | Apply(tenant: string)

  /** What Projection.Handle makes of an event, before it touches the database. */
  function EffectOf(b: Body): Effect {
    if !b.created then Ignore
    else if b.snapshot.None? then Refuse
    else
      var tenant := if b.tenant != "" then b.tenant else b.snapshot.value;
      if tenant == "" then Refuse else Apply(tenant)
  }

  datatype Tally = Tally(orders: int, last: int)

  /** INSERT ... ON CONFLICT (tenant_id) DO UPDATE on order_counts. */
  function Bump(counts: map<string, Tally>, tenant: string, at: int): Tally {
    if tenant in counts then
      Tally(counts[tenant].orders + 1, if at > counts[tenant].last then at else counts[tenant].last)
    else Tally(1, at)
  }

  datatype Job = Job(copy: nat, id: Id, body: Body, attempt: nat, deadline: int)

  /** How far one worker has got with one delivery. Claimed and Counted are inside an open
      transaction; Handled and Failed are the handler's answers. */
  datatype Worker =
    | Free
    | Received(job: Job)
    | Begun(job: Job, since: int)
    | Claimed(job: Job, since: int)
    | Counted(job: Job, since: int, tally: Tally)
    | Handled(job: Job)
    | Failed(job: Job, permanent: bool)
    | Copied(job: Job)

  /** One committed application of a message, delivered as `copy`; `at` is its processed_at. */
  datatype Applied = Applied(id: Id, copy: nat, tenant: string, occurredAt: int, at: int)

  /** `processed` is processed_events for this consumer, keyed by the message id; `applied`
      remembers every commit, also after the dedup row is pruned. */
  datatype View = View(workers: map<nat, Worker>, progress: map<nat, Progress>,
                       processed: map<Id, int>, counts: map<string, Tally>, applied: seq<Applied>)

  function WorkerOf(v: View, w: nat): Worker {
    if w in v.workers then v.workers[w] else Free
  }

  function ProgressOf(v: View, i: nat): Progress {
    if i in v.progress then v.progress[i] else Progress(0, Outstanding)
  }

  /** An uncommitted dedup row for the message id exists. */
  predicate EventHeld(v: View, id: Id) {
    exists w :: w in v.workers && (v.workers[w].Claimed? || v.workers[w].Counted?) && v.workers[w].job.id == id
  }

  /** The tenant's counter row is locked. */
  predicate TenantHeld(v: View, e: Effect) {
    exists w :: w in v.workers && v.workers[w].Counted? && EffectOf(v.workers[w].job.body) == e
  }

  // ---------- the steps ----------

  datatype State = State(now: int, outbox: Outbox, stream: seq<Copy>, view: View)

  const Start: State := State(0, Outbox(map[], map[], map[]), [], View(map[], map[], map[], map[], []))

  /** What a publish comes to: stored and acknowledged; stored with the acknowledgement
      lost; failed with nothing stored; rejected by the client as impossible. */
  datatype Answer = Stored | Unacked | Refused | Impossible

  datatype RelayStep = Claim | Publish(answer: Answer) | Mark | Commit | Abandon | Quarantine

  datatype WorkerStep =
    | Deliver(copy: nat) | Decide | ClaimEvent | Count | CommitEvent(told: bool) | Fail | Die
    | Ack(arrives: bool) | Nak | DeadLetter(answer: Answer) | Terminate(arrives: bool)

  datatype Action =
    | Tick
    | Insert(id: int, body: Body)
    | RelayDoes(r: nat, relayStep: RelayStep)
    | WorkerDoes(w: nat, workerStep: WorkerStep)
    | Replay(id: int)
    | PruneOutbox(ids: set<int>)
    | PruneProcessed(messages: set<Id>)

  /** The state after an attempted action; an action whose moment has not come changes
      nothing. */
  function Next(c: Config, s: State, a: Action): State {
    match a
    case Tick => s.(now := s.now + 1)
    case Insert(id, body) =>
      if id <= 0 || id in s.outbox.born then s
      else s.(outbox := s.outbox.(rows := s.outbox.rows[id := Row(body, None, None)],
                                  born := s.outbox.born[id := body]))
    case RelayDoes(r, step) =>
      var (outbox, stream) := RelayNext(c, s.outbox, s.stream, s.now, r, step);
      s.(outbox := outbox, stream := stream)
    case WorkerDoes(w, step) =>
      var (view, stream) := WorkerNext(c, s.view, s.stream, s.now, w, step);
      s.(view := view, stream := stream)
    case Replay(id) =>
      if id in s.outbox.rows && !Locked(s.outbox, id) then
        s.(outbox := s.outbox.(rows := s.outbox.rows[id := s.outbox.rows[id].(failedAt := None)]))
      else s
    case PruneOutbox(ids) =>
      s.(outbox := s.outbox.(rows := map id | id in s.outbox.rows &&
                                              !(id in ids && OutboxEligible(s.outbox.rows[id], s.now - c.keepOutbox))
                                      :: s.outbox.rows[id]))
    case PruneProcessed(messages) =>
      s.(view := s.view.(processed := map id | id in s.view.processed &&
                                               !(id in messages && s.view.processed[id] < s.now - c.keepProcessed)
                                       :: s.view.processed[id]))
  }

  /** WHERE published_at IS NOT NULL AND published_at < cutoff. */
  predicate OutboxEligible(row: Row, cutoff: int) {
    row.publishedAt.Some? && row.publishedAt.value < cutoff
  }

  function SetRelay(o: Outbox, r: nat, relay: Relay): Outbox {
    o.(relays := o.relays[r := relay])
  }

  function RelayNext(c: Config, o: Outbox, stream: seq<Copy>, now: int, r: nat, step: RelayStep)
    : (Outbox, seq<Copy>)
  {
    var tx := RelayOf(o, r);
    match step
    case Claim =>
      var batch := FirstIds(Claimable(o), c.batch);
      if tx.Idle? && batch != [] then (SetRelay(o, r, Open(batch, 0, false, now)), stream) else (o, stream)
    case Publish(answer) =>
      if tx.Open? && tx.acked < |tx.batch| && tx.batch[tx.acked] in o.rows then
        var id := tx.batch[tx.acked];
        var stored := Store(c, stream, Live(id), o.rows[id].body, now);
        match answer
        case Stored => (SetRelay(o, r, tx.(acked := tx.acked + 1)), stored)
        case Unacked => (SetRelay(o, r, Idle), stored)
        case Refused => (SetRelay(o, r, Idle), stream)
        case Impossible => (SetRelay(o, r, Rejected(id)), stream)
      else (o, stream)
    case Mark =>
      if tx.Open? && tx.acked == |tx.batch| then (SetRelay(o, r, tx.(marked := true)), stream) else (o, stream)
    case Commit =>
      if tx.Open? && tx.marked then
        (SetRelay(o, r, Idle).(rows := Stamp(o.rows, tx.batch, tx.since)), stream)
      else (o, stream)
    case Abandon => (SetRelay(o, r, Idle), stream)
    case Quarantine =>
      if tx.Rejected? && !Locked(o, tx.row) then
        if tx.row in o.rows && o.rows[tx.row].publishedAt.None? then
          (SetRelay(o, r, Idle).(rows := o.rows[tx.row := o.rows[tx.row].(failedAt := Some(now))]), stream)
        else (SetRelay(o, r, Idle), stream)
      else (o, stream)
  }

  function SetWorker(v: View, w: nat, worker: Worker): View {
    v.(workers := v.workers[w := worker])
  }

  /** The broker's record of a message once an acknowledgement of it arrives. */
  function Settle(v: View, copy: nat, fate: Fate, arrives: bool): View {
    var p := ProgressOf(v, copy);
    if arrives && p.fate == Outstanding then v.(progress := v.progress[copy := p.(fate := fate)]) else v
  }

  function WorkerNext(c: Config, v: View, stream: seq<Copy>, now: int, w: nat, step: WorkerStep)
    : (View, seq<Copy>)
  {
    var at := WorkerOf(v, w);
    match step
    case Deliver(i) =>
      var p := ProgressOf(v, i);
      if at.Free? && i < |stream| && Filtered(c, stream[i].id) && now <= stream[i].storedAt + c.maxAge
         && p.fate == Outstanding && p.deliveries < c.maxDeliver
      then
        var job := Job(i, stream[i].id, stream[i].body, p.deliveries + 1, now + c.ackWait);
        (SetWorker(v, w, Received(job)).(progress := v.progress[i := p.(deliveries := p.deliveries + 1)]), stream)
      else (v, stream)
    case Decide =>
      if at.Received? then
        match EffectOf(at.job.body)
        case Ignore => (SetWorker(v, w, Handled(at.job)), stream)
        case Refuse => (SetWorker(v, w, Failed(at.job, true)), stream)
        case Apply(_) => (SetWorker(v, w, Begun(at.job, now)), stream)
      else (v, stream)
    case ClaimEvent =>
      if at.Begun? && now <= at.job.deadline && !EventHeld(v, at.job.id) then
        if at.job.id in v.processed then (SetWorker(v, w, Handled(at.job)), stream)
        else (SetWorker(v, w, Claimed(at.job, at.since)), stream)
      else (v, stream)
    case Count =>
      if at.Claimed? && now <= at.job.deadline && EffectOf(at.job.body).Apply?
         && !TenantHeld(v, EffectOf(at.job.body))
      then
        var tally := Bump(v.counts, EffectOf(at.job.body).tenant, at.job.body.occurredAt);
        (SetWorker(v, w, Counted(at.job, at.since, tally)), stream)
      else (v, stream)
    case CommitEvent(told) =>
      if at.Counted? && now <= at.job.deadline && EffectOf(at.job.body).Apply? then
        var tenant := EffectOf(at.job.body).tenant;
        (SetWorker(v, w, if told then Handled(at.job) else Failed(at.job, false))
         .(processed := v.processed[at.job.id := at.since],
           counts := v.counts[tenant := at.tally],
           applied := v.applied + [Applied(at.job.id, at.job.copy, tenant, at.job.body.occurredAt, at.since)]),
         stream)
      else (v, stream)
    case Fail =>
      if at.Received? || at.Begun? || at.Claimed? || at.Counted? then
        (SetWorker(v, w, Failed(at.job, false)), stream)
      else (v, stream)
    case Die => (SetWorker(v, w, Free), stream)
    case Ack(arrives) =>
      if at.Handled? then (Settle(SetWorker(v, w, Free), at.job.copy, Acked, arrives), stream) else (v, stream)
    case Nak =>
      if at.Failed? && !at.permanent && at.job.attempt < c.maxDeliver then (SetWorker(v, w, Free), stream)
      else (v, stream)
    case DeadLetter(answer) =>
      if at.Failed? && (at.permanent || at.job.attempt >= c.maxDeliver) then
        var stored := Store(c, stream, Dead(at.job.id), at.job.body, now);
        match answer
        case Stored => (SetWorker(v, w, Copied(at.job)), stored)
        case Unacked => (SetWorker(v, w, Free), stored)
        case _ => (SetWorker(v, w, Free), stream)
      else (v, stream)
    case Terminate(arrives) =>
      if at.Copied? then (Settle(SetWorker(v, w, Free), at.job.copy, Terminated, arrives), stream) else (v, stream)
  }

  // ---------- runs ----------

  function Exec(c: Config, s: State, run: seq<Action>): State
    decreases run
  {
    if run == [] then s else Exec(c, Next(c, s, run[0]), run[1..])
  }

  ghost predicate Reaches(c: Config, s: State, t: State) {
    exists run :: Exec(c, s, run) == t
  }

  lemma {:induction false} ExecAppend(c: Config, s: State, a: seq<Action>, b: seq<Action>)
    ensures Exec(c, s, a + b) == Exec(c, Exec(c, s, a), b)
    decreases a
  {
    if a == [] {
      assert a + b == b;
    } else {
      assert (a + b)[1..] == a[1..] + b;
      ExecAppend(c, Next(c, s, a[0]), a[1..], b);
    }
  }

  lemma ReachesStep(c: Config, s: State, t: State, a: Action)
    requires Reaches(c, s, t)
    ensures Reaches(c, s, Next(c, t, a))
  {
    var run :| Exec(c, s, run) == t;
    ExecAppend(c, s, run, [a]);
    assert Exec(c, t, [a]) == Exec(c, Next(c, t, a), []);
    assert Exec(c, s, run + [a]) == Next(c, t, a);
  }
}
