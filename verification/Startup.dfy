/** What the startup checks mean for the pipeline: internal/platform/config/config.go, where
    Validate guards the retention and validateNATS (in Subjects) the broker's settings. */
module Startup {
  import opened Results
  import opened MessageIds
  import Subjects
  import opened Pipeline
  import opened PipelineSafety
  import opened PipelineRetention
  import opened PipelineScenarios
  import opened PipelineOnce

  /** The rest of the settings that the pipeline is built with. */
  datatype Retention = Retention(outbox: int, processedEvents: int, batchSize: int)

  datatype RetentionError = BelowStreamAge | OutboxNotPositive | ProcessedEventsNotPositive | BatchNotPositive

  method ValidateRetention(r: Retention, streamMaxAge: int) returns (errs: seq<RetentionError>)
    ensures BelowStreamAge in errs <==> 0 < r.processedEvents <= streamMaxAge
    ensures OutboxNotPositive in errs <==> r.outbox <= 0
    ensures ProcessedEventsNotPositive in errs <==> r.processedEvents <= 0
    ensures BatchNotPositive in errs <==> r.batchSize <= 0
    ensures errs == [] <==> 0 < r.processedEvents && streamMaxAge < r.processedEvents && 0 < r.outbox && 0 < r.batchSize
  {
    errs := [];
    if r.processedEvents > 0 && r.processedEvents <= streamMaxAge {
      errs := errs + [BelowStreamAge];
    }
    if r.outbox <= 0 {
      errs := errs + [OutboxNotPositive];
    }
    if r.processedEvents <= 0 {
      errs := errs + [ProcessedEventsNotPositive];
    }
    if r.batchSize <= 0 {
      errs := errs + [BatchNotPositive];
    }
  }

  /** The pipeline that accepted settings start, with relays that claim `batch` rows at most. */
  function ConfigOf(c: Subjects.Settings, r: Retention, batch: nat): Config
    requires Subjects.Coherent(c)
  {
    Config(batch, c.duplicateWindow, c.streamMaxAge, c.ackWait, c.maxDeliver, r.outbox, r.processedEvents,
           Subjects.Loops(c.subjectPrefix, c.dlqSubjectPrefix))
  }

  /** Settings that pass both checks are among those the theorems about retention speak of. */
  lemma AcceptedSettingsStart(c: Subjects.Settings, r: Retention, batch: nat)
    requires Subjects.Coherent(c) && 0 < r.processedEvents && c.streamMaxAge < r.processedEvents && 0 < batch
    ensures Startable(ConfigOf(c, r, batch)) && FloorAccepts(ConfigOf(c, r, batch))
  {
  }

  /** Of the settings that pass every startup check, exactly which never count an event twice
      without a late republish: the dead letters of the prefix are not in it, and the retention
      covers the stream's age and one AckWait, or messages are delivered once and remembered for
      longer than that. */
  lemma WhichAcceptedSettingsCountOnce(c: Subjects.Settings, r: Retention, batch: nat)
    requires Subjects.Coherent(c) && 0 < r.processedEvents && c.streamMaxAge < r.processedEvents && 0 < batch
    ensures (forall t :: Reaches(ConfigOf(c, r, batch), Start, t) && NoLateCopies(t) ==> OncePerEvent(t.view.applied))
            <==>
            && !(c.subjectPrefix + "." <= c.dlqSubjectPrefix + "." + c.subjectPrefix)
            && (c.streamMaxAge + c.ackWait <= r.processedEvents
                || (c.maxDeliver == 1 && c.streamMaxAge + c.ackWait < c.duplicateWindow))
  {
    AcceptedSettingsStart(c, r, batch);
    RetentionThatIsEnough(ConfigOf(c, r, batch));
    LoopsAsTexts(c.subjectPrefix, c.dlqSubjectPrefix);
  }

  /** Whether settings loop can be read off the two texts: the dead letter of the prefix goes on
      from the prefix and a dot. */
  lemma LoopsAsTexts(prefix: string, dlqPrefix: string)
    ensures Subjects.Loops(prefix, dlqPrefix) <==> prefix + "." <= dlqPrefix + "." + prefix
  {
    assert |Subjects.DeadLetterSubject(dlqPrefix, prefix)| > |prefix|;
  }
}
