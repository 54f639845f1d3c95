/** internal/platform/outbox/prune.go: bounded deletes repeated until a short batch. What
    prunes do to the rest of the pipeline is in Pipeline and PipelineRetention; this is the
    job itself, on tables nobody else is changing. */
module Prune {
  import opened Results
  import opened Pipeline
  import opened Sets

  class Table<T> {
    var rows: map<int, T>

    constructor (rows: map<int, T>)
      ensures this.rows == rows
    {
      this.rows := rows;
    }
  }

  /** How the attempt to run one batch turns out; ReplyLost is a DELETE that takes effect and
      whose result does not arrive. */
  datatype Turn = Fine | Interrupted | QueryFails | ReplyLost

  datatype PruneResult = PruneResult(outbox: nat, processedEvents: nat)

  function EligibleIn<T>(rows: map<int, T>, eligible: T -> bool): set<int> {
    set id | id in rows && eligible(rows[id])
  }

  /** SELECT ... LIMIT n, in no particular order. */
  method PickSome(ids: set<int>, n: nat) returns (picked: set<int>)
    ensures picked <= ids && |picked| == if |ids| < n then |ids| else n
  {
    picked := {};
    var rest := ids;
    while rest != {} && |picked| < n
      invariant picked + rest == ids && picked * rest == {} && |picked| <= n
      decreases rest
    {
      Inhabited(rest);
      var id :| id in rest;
      picked, rest := picked + {id}, rest - {id};
    }
    assert |ids| == |picked| + |rest|;
  }

  /** One DELETE of at most n eligible rows. */
  method DeleteBatch<T>(table: Table<T>, eligible: T -> bool, n: nat) returns (count: nat, ghost picked: set<int>)
    modifies table
    ensures picked <= EligibleIn(old(table.rows), eligible) && count == |picked|
    ensures var left := |EligibleIn(old(table.rows), eligible)|;
            count == if left < n then left else n
    ensures table.rows == old(table.rows) - picked
    ensures EligibleIn(table.rows, eligible) == EligibleIn(old(table.rows), eligible) - picked
  {
    var some := PickSome(EligibleIn(table.rows, eligible), n);
    table.rows := table.rows - some;
    count, picked := |some|, some;
  }

  function Deleted<T>(before: map<int, T>, after: map<int, T>): set<int> {
    before.Keys - after.Keys
  }

  /** Whatever interrupts it, the job has deleted eligible rows only; it says how many, short
      of the one batch whose result was lost, if that is how it ended. When it completes, it
      has deleted every one of them. */
  method DeleteInBatches<T>(table: Table<T>, eligible: T -> bool, batchSize: nat, turn: nat -> Turn)
    returns (total: nat, completed: bool)
    requires batchSize > 0
    modifies table
    ensures OnlyDeletes(old(table.rows), table.rows, eligible)
    ensures total <= |Deleted(old(table.rows), table.rows)| <= total + batchSize
    ensures completed || NoReplyIsLost(turn) ==> total == |Deleted(old(table.rows), table.rows)|
    ensures completed ==> DeletesAll(old(table.rows), table.rows, eligible)
    ensures (forall k :: turn(k) == Fine) ==> completed
  {
    ghost var before := table.rows;
    ghost var gone: set<int> := {};
    var attempt := 0;
    total := 0;
    while true
      invariant gone <= EligibleIn(before, eligible)
      invariant table.rows == before - gone && total == |gone|
      invariant EligibleIn(table.rows, eligible) == EligibleIn(before, eligible) - gone
      decreases |EligibleIn(table.rows, eligible)|
    {
      if turn(attempt) == Interrupted || turn(attempt) == QueryFails {
        GoneIsGone(before, gone, eligible);
        return total, false;
      }
      var n;
      ghost var picked;
      n, picked := DeleteBatch(table, eligible, batchSize);
      OneMoreBatch(before, gone, picked, eligible);
      gone := gone + picked;
      if turn(attempt) == ReplyLost {
        GoneIsGone(before, gone, eligible);
        assert !NoReplyIsLost(turn);
        return total, false;
      }
      attempt := attempt + 1;
      total := total + n;
      if n < batchSize {
        GoneIsGone(before, gone, eligible);
        AllAreGone(before, gone, eligible);
        return total, true;
      }
    }
  }

  ghost predicate NoReplyIsLost(turn: nat -> Turn) {
    forall k :: turn(k) != ReplyLost
  }

  lemma OneMoreBatch<T>(before: map<int, T>, gone: set<int>, picked: set<int>, eligible: T -> bool)
    requires gone <= EligibleIn(before, eligible) && picked <= EligibleIn(before, eligible) - gone
    ensures |gone + picked| == |gone| + |picked| && before - (gone + picked) == (before - gone) - picked
    ensures var left := EligibleIn(before, eligible) - gone;
            left - picked == EligibleIn(before, eligible) - (gone + picked) && |left - picked| == |left| - |picked|
  {
    var left := EligibleIn(before, eligible) - gone;
    assert left == (left - picked) + picked;
  }

  lemma GoneIsGone<T>(before: map<int, T>, gone: set<int>, eligible: T -> bool)
    requires gone <= EligibleIn(before, eligible)
    ensures Deleted(before, before - gone) == gone && OnlyDeletes(before, before - gone, eligible)
  {
  }

  /** A short batch leaves nothing eligible behind. */
  lemma AllAreGone<T>(before: map<int, T>, gone: set<int>, eligible: T -> bool)
    requires gone <= EligibleIn(before, eligible) && |EligibleIn(before, eligible) - gone| == 0
    ensures DeletesAll(before, before - gone, eligible)
  {
    assert EligibleIn(before, eligible) == gone + (EligibleIn(before, eligible) - gone);
  }

  /** After deleting all that is eligible, nothing is. */
  lemma NoneLeft<T>(before: map<int, T>, after: map<int, T>, eligible: T -> bool)
    requires after == before - EligibleIn(before, eligible)
    ensures EligibleIn(after, eligible) == {} && before.Keys - after.Keys == EligibleIn(before, eligible)
  {
  }

  /** Exactly the eligible rows are gone. */
  predicate DeletesAll<T(==)>(before: map<int, T>, after: map<int, T>, eligible: T -> bool) {
    after == before - EligibleIn(before, eligible)
  }

  /** Some eligible rows are gone, and nothing else is different. */
  predicate OnlyDeletes<T(==)>(before: map<int, T>, after: map<int, T>, eligible: T -> bool) {
    var gone := before.Keys - after.Keys;
    gone <= EligibleIn(before, eligible) && after == before - gone
  }

  /** The rows with a published_at before the cutoff. */
  function PublishedBefore(rows: map<int, Row>, cutoff: int): set<int> {
    set id | id in rows && rows[id].publishedAt.Some? && rows[id].publishedAt.value < cutoff
  }

  function ProcessedBefore(rows: map<int, int>, cutoff: int): set<int> {
    set id | id in rows && rows[id] < cutoff
  }

  lemma PublishedAreEligible(rows: map<int, Row>, cutoff: int)
    ensures EligibleIn(rows, (row: Row) => OutboxEligible(row, cutoff)) == PublishedBefore(rows, cutoff)
  {
  }

  lemma ProcessedAreEligible(rows: map<int, int>, cutoff: int)
    ensures EligibleIn(rows, (at: int) => at < cutoff) == ProcessedBefore(rows, cutoff)
  {
  }

  class Pruner {
    const outbox: Table<Row>
    const processed: Table<int>
    const batchSize: nat

    constructor (outbox: Table<Row>, processed: Table<int>, batchSize: int)
      ensures this.outbox == outbox && this.processed == processed
      ensures this.batchSize == if batchSize > 0 then batchSize else 1000
    {
      this.outbox, this.processed := outbox, processed;
      this.batchSize := if batchSize <= 0 then 1000 else batchSize;
    }

    /** What Prune would delete: the rows published before one cutoff, and the messages
        processed before the other. */
    function Eligible(now: int, outboxAge: int, processedAge: int): (r: PruneResult)
      reads outbox, processed
      ensures r == PruneResult(|PublishedBefore(outbox.rows, now - outboxAge)|,
                               |ProcessedBefore(processed.rows, now - processedAge)|)
    {
      PublishedAreEligible(outbox.rows, now - outboxAge);
      ProcessedAreEligible(processed.rows, now - processedAge);
      PruneResult(|EligibleIn(outbox.rows, (row: Row) => OutboxEligible(row, now - outboxAge))|,
                  |EligibleIn(processed.rows, (at: int) => at < now - processedAge)|)
    }

    /** A completed prune deletes exactly the rows published before the one cutoff and the
        messages processed before the other, as many as Eligible counted. A prune of any kind
        keeps everything else, unchanged: every row that was never published, at any age,
        every row published since, and every dedup row within its retention. */
    method Run(now: int, outboxAge: int, processedAge: int, turn: nat -> Turn, laterTurn: nat -> Turn)
      returns (result: PruneResult, completed: bool)
      requires batchSize > 0
      modifies outbox, processed
      ensures completed ==> result == old(Eligible(now, outboxAge, processedAge))
      ensures completed ==> Eligible(now, outboxAge, processedAge) == PruneResult(0, 0)
      ensures completed ==>
                && result.outbox == |PublishedBefore(old(outbox.rows), now - outboxAge)|
                && result.processedEvents == |ProcessedBefore(old(processed.rows), now - processedAge)|
                && (forall id :: id in outbox.rows ==> outbox.rows[id].publishedAt.None?
                                                       || outbox.rows[id].publishedAt.value >= now - outboxAge)
                && (forall id :: id in processed.rows ==> processed.rows[id] >= now - processedAge)
      ensures outbox.rows.Keys <= old(outbox.rows).Keys && processed.rows.Keys <= old(processed.rows).Keys
      ensures forall id :: id in outbox.rows ==> outbox.rows[id] == old(outbox.rows)[id]
      ensures forall id :: id in processed.rows ==> processed.rows[id] == old(processed.rows)[id]
      ensures forall id :: id in old(outbox.rows)
                           && (old(outbox.rows)[id].publishedAt.None?
                               || old(outbox.rows)[id].publishedAt.value >= now - outboxAge) ==>
                id in outbox.rows
      ensures forall id :: id in old(processed.rows) && old(processed.rows)[id] >= now - processedAge ==>
                id in processed.rows
      ensures (forall k :: turn(k) == Fine && laterTurn(k) == Fine) ==> completed
    {
      var oldEnough := (row: Row) => OutboxEligible(row, now - outboxAge);
      var forgettable := (at: int) => at < now - processedAge;
      ghost var before, dedup := outbox.rows, processed.rows;
      PublishedAreEligible(before, now - outboxAge);
      ProcessedAreEligible(dedup, now - processedAge);
      var deleted, done := DeleteInBatches(outbox, oldEnough, batchSize, turn);
      result := PruneResult(deleted, 0);
      if !done {
        return result, false;
      }
      deleted, completed := DeleteInBatches(processed, forgettable, batchSize, laterTurn);
      result := result.(processedEvents := deleted);
      if completed {
        NoneLeft(before, outbox.rows, oldEnough);
        NoneLeft(dedup, processed.rows, forgettable);
      }
    }
  }
}
