/**
 * The send log (model/send_log.go): one row per delivery attempt, created
 * `pending` and moved once to `sent` or `failed`.
 */
module SendLogModel {
  import opened Wrappers
  import opened Types

  /** Wall-clock instants are supplied by the caller. */
  type Timestamp = int

  /** The only three statuses a log ever holds. */
  datatype SendStatus = Pending | Sent | Failed

  /**
   * A log row as the store keeps it.  The source serialises the parameters
   * to JSON; the row here keeps the parameter map itself.
   */
  datatype SendLogRecord = SendLogRecord(
    id: nat,
    templateId: Option<nat>,
    triggerCode: string,
    language: string,
    recipient: string,
    subject: string,
    params: map<string, Value>,
    status: SendStatus,
    errorMessage: string,
    sentAt: Option<Timestamp>,
    createdAt: Timestamp)

  /** The fields that no status transition touches. */
  predicate SameEntry(a: SendLogRecord, b: SendLogRecord) {
    && a.id == b.id && a.templateId == b.templateId
    && a.triggerCode == b.triggerCode && a.language == b.language
    && a.recipient == b.recipient && a.subject == b.subject
    && a.params == b.params && a.createdAt == b.createdAt
  }

  /** The row after `MarkSent(now)`. */
  function MarkedSent(rec: SendLogRecord, now: Timestamp): (r: SendLogRecord)
    ensures r.status == Sent && r.sentAt == Some(now)
    ensures r.errorMessage == rec.errorMessage
    ensures SameEntry(r, rec)
  {
    rec.(status := Sent, sentAt := Some(now))
  }

  /** The row after `MarkFailed(message)`. */
  function MarkedFailed(rec: SendLogRecord, message: string): (r: SendLogRecord)
    ensures r.status == Failed && r.errorMessage == message
    ensures r.sentAt == rec.sentAt
    ensures SameEntry(r, rec)
  {
    rec.(status := Failed, errorMessage := message)
  }

  /** The in-memory log entry that the send pipeline fills in and updates. */
  class SendLog {
    var id: nat
    var templateId: Option<nat>
    var triggerCode: string
    var language: string
    var recipient: string
    var subject: string
    var params: map<string, Value>
    var status: SendStatus
    var errorMessage: string
    var sentAt: Option<Timestamp>
    var createdAt: Timestamp

    /** The entry's current field values. */
    function Record(): SendLogRecord
      reads this
    {
      SendLogRecord(id, templateId, triggerCode, language, recipient, subject,
                    params, status, errorMessage, sentAt, createdAt)
    }

    /** A fresh, unsaved entry in `pending` status. */
    constructor (templateId: Option<nat>, triggerCode: string, language: string,
                 recipient: string, subject: string, params: map<string, Value>)
      ensures Record() == SendLogRecord(0, templateId, triggerCode, language, recipient,
                                        subject, params, Pending, "", None, 0)
    {
      this.id := 0;
      this.templateId := templateId;
      this.triggerCode := triggerCode;
      this.language := language;
      this.recipient := recipient;
      this.subject := subject;
      this.params := params;
      this.status := Pending;
      this.errorMessage := "";
      this.sentAt := None;
      this.createdAt := 0;
    }

    /** `MarkSent`: status `sent`, stamped with `now`; nothing else changes. */
    method MarkSent(now: Timestamp)
      modifies this`status, this`sentAt
      ensures Record() == MarkedSent(old(Record()), now)
    {
      status := Sent;
      sentAt := Some(now);
    }

    /** `MarkFailed`: status `failed` with the error text; nothing else changes. */
    method MarkFailed(message: string)
      modifies this`status, this`errorMessage
      ensures Record() == MarkedFailed(old(Record()), message)
    {
      status := Failed;
      errorMessage := message;
    }
  }
}
