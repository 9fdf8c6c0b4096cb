/** The message envelope and its retry lifecycle (core/envelope/typed_envelope.py). */
module Envelopes {
  import opened Options

  /** A JSON value: a string, or anything else by its rendering. */
  datatype Json = JsonNull | JsonText(text: string) | JsonOther(rendering: string)

  datatype Status = Pending | Success | Error | Retry | Dlq

  datatype Metadata = Metadata(
    messageId: string, taskId: string, correlationId: Option<string>, source: string,
    processed: bool, retryCount: int, maxRetries: int)

  const DEFAULT_MAX_RETRIES: int := 3

  datatype Envelope = Envelope(
    metadata: Metadata, payload: map<string, Json>, status: Status,
    error: Option<string>, errorCode: Option<string>)

  function IncrementRetry(e: Envelope): Envelope {
    var e' := e.(metadata := e.metadata.(retryCount := e.metadata.retryCount + 1));
    e'.(status := if e'.metadata.retryCount >= e'.metadata.maxRetries then Dlq else Retry)
  }

  function MarkError(e: Envelope, error: string, code: Option<string>): Envelope {
    e.(metadata := e.metadata.(processed := true), status := Error, error := Some(error), errorCode := code)
  }

  function MarkProcessed(e: Envelope): Envelope {
    e.(metadata := e.metadata.(processed := true), status := Success)
  }

  /** A fresh envelope answering `original`: its retries start over with the default limit. */
  function ResultFor(original: Envelope, payload: map<string, Json>, source: string, messageId: string): Envelope {
    Envelope(Metadata(messageId, original.metadata.taskId, original.metadata.correlationId, source,
                      false, 0, DEFAULT_MAX_RETRIES),
             payload, Success, None, None)
  }

  /** A fresh envelope reporting that `original` failed: the retries it has used come along. */
  function ErrorFor(
    original: Envelope, error: string, source: string, code: Option<string>, messageId: string): Envelope
  {
    Envelope(Metadata(messageId, original.metadata.taskId, original.metadata.correlationId, source,
                      false, original.metadata.retryCount, original.metadata.maxRetries),
             original.payload, Error, Some(error), code)
  }

  /** What may happen to a failing message on its way: failures are marked or wrapped, retries counted. */
  datatype Event =
    | Retrying
    | Marking(error: string, code: Option<string>)
    | Wrapping(error: string, code: Option<string>, source: string, messageId: string)

  function Apply(e: Envelope, ev: Event): Envelope {
    match ev
    case Retrying => IncrementRetry(e)
    case Marking(error, code) => MarkError(e, error, code)
    case Wrapping(error, code, source, id) => ErrorFor(e, error, source, code, id)
  }

  function After(e: Envelope, evs: seq<Event>, k: nat): Envelope
    requires k <= |evs|
  {
    if k == 0 then e else Apply(After(e, evs, k - 1), evs[k - 1])
  }

  function Retries(evs: seq<Event>, k: nat): nat
    requires k <= |evs|
  {
    if k == 0 then 0 else Retries(evs, k - 1) + if evs[k - 1].Retrying? then 1 else 0
  }

  /**
   However failures are marked and wrapped in between, a retry sends the message to the dead letter
   queue exactly when the retries it started with and those counted since reach its limit.
   */
  lemma {:induction false} DeadAfterMaxRetries(e: Envelope, evs: seq<Event>, k: nat)
    requires k <= |evs|
    ensures After(e, evs, k).metadata.retryCount == e.metadata.retryCount + Retries(evs, k)
    ensures After(e, evs, k).metadata.maxRetries == e.metadata.maxRetries
    ensures k > 0 && evs[k - 1].Retrying? ==>
              After(e, evs, k).status
              == if e.metadata.retryCount + Retries(evs, k) >= e.metadata.maxRetries then Dlq else Retry
  {
    if k == 0 {
    } else {
      DeadAfterMaxRetries(e, evs, k - 1);
    }
  }

  /** A result that is itself retried has the default number of retries, whatever its task had used. */
  lemma AnswerStartsOver(
    original: Envelope, payload: map<string, Json>, source: string, messageId: string, evs: seq<Event>, k: nat)
    requires 0 < k <= |evs| && evs[k - 1].Retrying?
    ensures var answer := After(ResultFor(original, payload, source, messageId), evs, k);
            answer.status == if Retries(evs, k) >= 3 then Dlq else Retry
  {
    DeadAfterMaxRetries(ResultFor(original, payload, source, messageId), evs, k);
  }

  /** What may become of a message: a failure as above, an end, or an answer that takes its place. */
  datatype Turn =
    | Failing(event: Event)
    | Finishing
    | Answering(payload: map<string, Json>, source: string, messageId: string)

  function AfterTurns(e: Envelope, ts: seq<Turn>, k: nat): Envelope
    requires k <= |ts|
  {
    if k == 0 then e
    else
      var e' := AfterTurns(e, ts, k - 1);
      match ts[k - 1]
      case Failing(event) => Apply(e', event)
      case Finishing => MarkProcessed(e')
      case Answering(payload, source, id) => ResultFor(e', payload, source, id)
  }

  ghost predicate Answered(ts: seq<Turn>, k: nat)
    requires k <= |ts|
  {
    exists i :: 0 <= i < k && ts[i].Answering?
  }

  /**
   Any chain of failures, retries, errors, ends and answers leaves task and correlation recognisable;
   the payload changes only with an answer, and the limit of retries with it.
   */
  lemma {:induction false} LineageKept(e: Envelope, ts: seq<Turn>, k: nat)
    requires k <= |ts|
    ensures var e' := AfterTurns(e, ts, k);
            && e'.metadata.taskId == e.metadata.taskId
            && e'.metadata.correlationId == e.metadata.correlationId
            && (!Answered(ts, k) ==> e'.payload == e.payload && e'.metadata.maxRetries == e.metadata.maxRetries)
            && (Answered(ts, k) ==> e'.metadata.maxRetries == 3)
  {
    if k == 0 {
    } else {
      LineageKept(e, ts, k - 1);
      if ts[k - 1].Answering? {
        assert Answered(ts, k);
      } else {
        assert Answered(ts, k) <==> Answered(ts, k - 1);
      }
    }
  }

  // ----- What the history says of each field -----

  /** The error and its code are those of the last failure, and an answer has none. */
  function LatestError(e: Envelope, ts: seq<Turn>, k: nat): (Option<string>, Option<string>)
    requires k <= |ts|
  {
    if k == 0 then (e.error, e.errorCode)
    else match ts[k - 1]
      case Failing(Marking(error, code)) => (Some(error), code)
      case Failing(Wrapping(error, code, _, _)) => (Some(error), code)
      case Answering(_, _, _) => (None, None)
      case _ => LatestError(e, ts, k - 1)
  }

  /** The envelope itself, by message id and source, is the last one that was made. */
  function LatestSender(e: Envelope, ts: seq<Turn>, k: nat): (string, string)
    requires k <= |ts|
  {
    if k == 0 then (e.metadata.messageId, e.metadata.source)
    else match ts[k - 1]
      case Failing(Wrapping(_, _, source, id)) => (id, source)
      case Answering(_, source, id) => (id, source)
      case _ => LatestSender(e, ts, k - 1)
  }

  /** It has been processed if it was marked as failed or finished since then. */
  predicate MarkedSince(e: Envelope, ts: seq<Turn>, k: nat)
    requires k <= |ts|
  {
    if k == 0 then e.metadata.processed
    else match ts[k - 1]
      case Finishing => true
      case Failing(Marking(_, _)) => true
      case Failing(Retrying) => MarkedSince(e, ts, k - 1)
      case _ => false
  }

  /** The retries since the last answer. */
  function RetriesSince(e: Envelope, ts: seq<Turn>, k: nat): int
    requires k <= |ts|
  {
    if k == 0 then e.metadata.retryCount
    else if ts[k - 1].Answering? then 0
    else RetriesSince(e, ts, k - 1) + if ts[k - 1] == Failing(Retrying) then 1 else 0
  }

  function LatestPayload(e: Envelope, ts: seq<Turn>, k: nat): map<string, Json>
    requires k <= |ts|
  {
    if k == 0 then e.payload
    else if ts[k - 1].Answering? then ts[k - 1].payload
    else LatestPayload(e, ts, k - 1)
  }

  /** Each field is what the history of the message says of it, and the status what its last turn says. */
  lemma {:induction false} FieldsTellHistory(e: Envelope, ts: seq<Turn>, k: nat)
    requires k <= |ts|
    ensures var e' := AfterTurns(e, ts, k);
            && (e'.error, e'.errorCode) == LatestError(e, ts, k)
            && (e'.metadata.messageId, e'.metadata.source) == LatestSender(e, ts, k)
            && (e'.metadata.processed <==> MarkedSince(e, ts, k))
            && e'.metadata.retryCount == RetriesSince(e, ts, k)
            && e'.payload == LatestPayload(e, ts, k)
            && (k > 0 ==>
                  match ts[k - 1]
                  case Finishing => e'.status == Success
                  case Answering(_, _, _) => e'.status == Success
                  case Failing(Retrying) =>
                    e'.status == if RetriesSince(e, ts, k) >= e'.metadata.maxRetries then Dlq else Retry
                  case Failing(_) => e'.status == Error)
  {
    if k == 0 {
    } else {
      FieldsTellHistory(e, ts, k - 1);
    }
  }

  /** The envelope object, whose methods change it in place. */
  class EnvelopeObject {
    var metadata: Metadata
    var payload: map<string, Json>
    var status: Status
    var error: Option<string>
    var errorCode: Option<string>

    function View(): Envelope
      reads this
    {
      Envelope(metadata, payload, status, error, errorCode)
    }

    constructor (e: Envelope)
      ensures View() == e
    {
      metadata, payload, status, error, errorCode := e.metadata, e.payload, e.status, e.error, e.errorCode;
    }

    method CountRetry()
      modifies this
      ensures View() == IncrementRetry(old(View()))
    {
      metadata := metadata.(retryCount := metadata.retryCount + 1);
      if metadata.retryCount >= metadata.maxRetries {
        status := Dlq;
      } else {
        status := Retry;
      }
    }

    method Fail(message: string, code: Option<string>)
      modifies this
      ensures View() == MarkError(old(View()), message, code)
    {
      metadata := metadata.(processed := true);
      status := Error;
      error := Some(message);
      errorCode := code;
    }

    method Finish()
      modifies this
      ensures View() == MarkProcessed(old(View()))
    {
      metadata := metadata.(processed := true);
      status := Success;
    }
  }
}
