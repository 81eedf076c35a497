/**
 * The outbox message entity: a serialised message waiting to be published,
 * and the record of its processing. The message part never changes after
 * creation; the processing part moves from Created to one of the two
 * processed states, and a successful processing is final.
 */
module Outbox {
  import opened Clr

  /** OutboxMessageState. */
  datatype OutboxMessageState = Created | ProcessedSuccessfully | ProcessedUnsuccessfully

  /** The part of a message the two Mark methods update: State, ProcessedOn, ProcessingErrorDetails. */
  datatype Processing = Processing(state: OutboxMessageState, processedOn: Option<DateTime>, processingErrorDetails: Option<string>)

  const AlreadyProcessedSuccessfully := InvalidOperationException("The outbox message is already processed successfully.")

  /** The processing record of a message just put in the outbox. */
  const Unprocessed := Processing(Created, None, None)

  /**
   * What the processing record can look like: nothing is stamped before
   * processing, a processed message carries its processing time, and only an
   * unsuccessful one carries (non-blank) error details.
   */
  predicate ValidProcessing(p: Processing)
  {
    match p.state
    case Created => p.processedOn.None? && p.processingErrorDetails.None?
    case ProcessedSuccessfully => p.processedOn.Some? && p.processingErrorDetails.None?
    case ProcessedUnsuccessfully => p.processedOn.Some? && !IsNullOrWhiteSpace(p.processingErrorDetails)
  }

  /** MarkAsProcessedSuccessfully on a processing record, at time `now`. */
  function MarkedSuccessfully(p: Processing, now: DateTime): (r: Outcome<Processing>)
    ensures r.Raised? <==> p.state == ProcessedSuccessfully
    ensures r.Raised? ==> r.exception == AlreadyProcessedSuccessfully
    ensures r.Done? ==> r.value.state == ProcessedSuccessfully && r.value.processedOn == Some(now)
    ensures r.Done? ==> r.value.processingErrorDetails.None? && ValidProcessing(r.value)
  {
    if p.state == ProcessedSuccessfully then Raised(AlreadyProcessedSuccessfully)
    else Done(Processing(ProcessedSuccessfully, Some(now), None))
  }

  /**
   * MarkAsProcessedUnsuccessfully on a processing record: blank details are
   * rejected first (null and white space are told apart by the exception),
   * then a message already processed successfully.
   */
  function MarkedUnsuccessfully(p: Processing, details: Option<string>, now: DateTime): (r: Outcome<Processing>)
    ensures details.None? ==> r == Raised(ArgumentNullException("processingErrorDetails"))
    ensures details.Some? && IsNullOrWhiteSpace(details) ==> r == Raised(ArgumentException("processingErrorDetails"))
    ensures !IsNullOrWhiteSpace(details) && p.state == ProcessedSuccessfully ==> r == Raised(AlreadyProcessedSuccessfully)
    ensures r.Done? <==> !IsNullOrWhiteSpace(details) && p.state != ProcessedSuccessfully
    ensures r.Done? ==> r.value == Processing(ProcessedUnsuccessfully, Some(now), details) && ValidProcessing(r.value)
  {
    if details.None? then Raised(ArgumentNullException("processingErrorDetails"))
    else if IsNullOrWhiteSpace(details) then Raised(ArgumentException("processingErrorDetails"))
    else if p.state == ProcessedSuccessfully then Raised(AlreadyProcessedSuccessfully)
    else Done(Processing(ProcessedUnsuccessfully, Some(now), details))
  }

  /** OutboxMessage. */
  class OutboxMessage
  {
    var state: OutboxMessageState
    const messageType: string
    const messagePayload: string
    const createdOn: DateTime
    var processedOn: Option<DateTime>
    var processingErrorDetails: Option<string>

    /** The processing record of this message. */
    function ProcessingRecord(): Processing
      reads this
    {
      Processing(state, processedOn, processingErrorDetails)
    }

    predicate Valid()
      reads this
    {
      ValidProcessing(ProcessingRecord())
    }

    /** OutboxMessage.IsProcessedSuccessfully. */
    predicate IsProcessedSuccessfully()
      reads this
    {
      state == ProcessedSuccessfully
    }

    /** OutboxMessage.IsProcessedUnsuccessfully. */
    predicate IsProcessedUnsuccessfully()
      reads this
    {
      state == ProcessedUnsuccessfully
    }

    /** The object initialiser used by SerializeToOutbox: a message in state Created, not yet processed. */
    constructor (messageType: string, messagePayload: string, createdOn: DateTime)
      ensures this.messageType == messageType && this.messagePayload == messagePayload && this.createdOn == createdOn
      ensures ProcessingRecord() == Unprocessed && Valid()
    {
      this.messageType := messageType;
      this.messagePayload := messagePayload;
      this.createdOn := createdOn;
      state := Created;
      processedOn := None;
      processingErrorDetails := None;
    }

    /**
     * SerializeToOutbox<TMessage>(message): rejects null, then records the
     * static message type's full name, the JSON text of the message and the
     * creation time `now` (DateTime.UtcNow).
     */
    static method SerializeToOutbox<M>(message: Option<M>, messageTypeFullName: string, toJsonString: M -> string, now: DateTime)
      returns (r: Outcome<OutboxMessage>)
      ensures message.None? ==> r == Raised(ArgumentNullException("message"))
      ensures message.Some? ==> r.Done? && fresh(r.value)
      ensures message.Some? ==> r.value.messageType == messageTypeFullName && r.value.messagePayload == toJsonString(message.value)
      ensures message.Some? ==> r.value.createdOn == now && r.value.ProcessingRecord() == Unprocessed && r.value.Valid()
    {
      if message.None? {
        return Raised(ArgumentNullException("message"));
      }
      var outboxMessage := new OutboxMessage(messageTypeFullName, toJsonString(message.value), now);
      return Done(outboxMessage);
    }

    /**
     * MarkAsProcessedSuccessfully(), at time `now`: the thrown exception, if
     * any, and otherwise the new processing record.
     */
    method MarkAsProcessedSuccessfully(now: DateTime) returns (thrown: Option<Exception>)
      modifies this
      ensures MarkedSuccessfully(old(ProcessingRecord()), now)
              == if thrown.Some? then Raised(thrown.value) else Done(ProcessingRecord())
      ensures thrown.Some? ==> unchanged(this)
      ensures old(Valid()) ==> Valid()
    {
      if IsProcessedSuccessfully() {
        return Some(AlreadyProcessedSuccessfully);
      }
      state := ProcessedSuccessfully;
      processedOn := Some(now);
      processingErrorDetails := None;
      return None;
    }

    /** MarkAsProcessedUnsuccessfully(processingErrorDetails), at time `now`. */
    method MarkAsProcessedUnsuccessfully(details: Option<string>, now: DateTime) returns (thrown: Option<Exception>)
      modifies this
      ensures MarkedUnsuccessfully(old(ProcessingRecord()), details, now)
              == if thrown.Some? then Raised(thrown.value) else Done(ProcessingRecord())
      ensures thrown.Some? ==> unchanged(this)
      ensures old(Valid()) ==> Valid()
    {
      if details.None? {
        return Some(ArgumentNullException("processingErrorDetails"));
      }
      if IsNullOrWhiteSpace(details) {
        return Some(ArgumentException("processingErrorDetails"));
      }
      if IsProcessedSuccessfully() {
        return Some(AlreadyProcessedSuccessfully);
      }
      state := ProcessedUnsuccessfully;
      processedOn := Some(now);
      processingErrorDetails := details;
      return None;
    }
  }

  /** A call of one of the two Mark methods. */
  datatype Mark = MarkSuccess(at: DateTime) | MarkFailure(details: Option<string>, at: DateTime)

  /** One call: its outcome on the processing record. */
  function Apply(p: Processing, mark: Mark): Outcome<Processing>
  {
    match mark
    case MarkSuccess(at) => MarkedSuccessfully(p, at)
    case MarkFailure(details, at) => MarkedUnsuccessfully(p, details, at)
  }

  /** A run of calls; a call that throws leaves the record as it was (the caller catches and goes on). */
  function Run(p: Processing, marks: seq<Mark>): Processing
  {
    if |marks| == 0 then p
    else
      var before := Run(p, marks[..|marks| - 1]);
      match Apply(before, marks[|marks| - 1])
      case Done(after) => after
      case Raised(_) => before
  }

  /** How many calls in a run returned normally after a MarkSuccess. */
  function SuccessfulMarks(p: Processing, marks: seq<Mark>): nat
  {
    if |marks| == 0 then 0
    else
      var before := Run(p, marks[..|marks| - 1]);
      SuccessfulMarks(p, marks[..|marks| - 1])
      + if marks[|marks| - 1].MarkSuccess? && Apply(before, marks[|marks| - 1]).Done? then 1 else 0
  }

  /** Every call keeps the processing record well formed. */
  lemma {:induction false} RunPreservesValidity(p: Processing, marks: seq<Mark>)
    requires ValidProcessing(p)
    ensures ValidProcessing(Run(p, marks))
  {
    if |marks| > 0 {
      RunPreservesValidity(p, marks[..|marks| - 1]);
    }
  }

  /**
   * ProcessedSuccessfully is absorbing: once a run reaches it, no later call
   * changes the record at all.
   */
  lemma {:induction false} SuccessIsAbsorbing(p: Processing, marks: seq<Mark>)
    requires p.state == ProcessedSuccessfully
    ensures Run(p, marks) == p
  {
    if |marks| > 0 {
      SuccessIsAbsorbing(p, marks[..|marks| - 1]);
      match marks[|marks| - 1]
      case MarkSuccess(at) =>
      case MarkFailure(details, at) =>
    }
  }

  /**
   * A message is marked as processed successfully at most once, whatever the
   * sequence of calls, and exactly when it ends in ProcessedSuccessfully
   * (starting from a message not yet processed successfully).
   */
  lemma {:induction false} AtMostOneSuccessfulMark(p: Processing, marks: seq<Mark>)
    requires p.state != ProcessedSuccessfully
    ensures SuccessfulMarks(p, marks) <= 1
    ensures SuccessfulMarks(p, marks) == 1 <==> Run(p, marks).state == ProcessedSuccessfully
  {
    if |marks| > 0 {
      AtMostOneSuccessfulMark(p, marks[..|marks| - 1]);
    }
  }
}
