/**
 * The notification service (service.go): validation and template
 * resolution for `Send`, the three-tier parameter merge, envelope
 * composition, the send-log lifecycle around a dispatch, preview and test
 * sends, and template creation and partial update.
 *
 * The clock is a parameter: `year` is what `time.Now().Year()` gives and
 * `now` the instant stamped on a log row when it is created and when it is
 * marked sent.
 */
module EmailService {
  import opened Wrappers
  import opened Errors
  import opened Strings
  import opened TemplateModel
  import opened Types
  import opened SendLogModel
  import opened Trigger
  import opened TemplateEngine
  import opened Repository
  import opened Transport

  /** The language a send or a new template falls back to. */
  const DefaultLanguage := "zh-CN"

  /** The parameter the service fills with the current year. */
  const CurrentYearKey := "CurrentYear"

  // ---------------------------------------------------------------------
  // Send: validation and template resolution
  // ---------------------------------------------------------------------

  /**
   * The first check `Send` fails, in the order it makes them: a missing
   * trigger code, then a missing recipient, then an unregistered trigger.
   */
  function SendRejection(triggerCode: string, recipient: string, registered: bool): (r: Option<Error>)
    ensures r.None? <==> triggerCode != "" && recipient != "" && registered
    ensures triggerCode == "" ==> r == Some(InvalidInput)
    ensures triggerCode != "" && recipient == "" ==> r == Some(NoRecipient)
    ensures triggerCode != "" && recipient != "" && !registered ==> r == Some(TriggerNotFound)
  {
    if triggerCode == "" then Some(InvalidInput)
    else if recipient == "" then Some(NoRecipient)
    else if !registered then Some(TriggerNotFound)
    else None
  }

  /** The language asked for, or the default when none is. */
  function LanguageOrDefault(language: string): (r: string)
    ensures r != ""
    ensures language != "" ==> r == language
    ensures language == "" ==> r == DefaultLanguage
  {
    if language == "" then DefaultLanguage else language
  }

  /**
   * The template `Send` uses: the enabled template of the trigger in the
   * requested language or, failing that and only when that language is not
   * the default one, the enabled template in the default language.
   */
  function ResolveTemplate(rows: seq<Template>, triggerCode: string, language: string): (r: Result<Template, Error>)
    ensures r.Success? ==> r.value in rows && r.value.triggerCode == triggerCode && r.value.IsEnabled()
    ensures r.Success? ==> || r.value.language == LanguageOrDefault(language)
                           || (r.value.language == DefaultLanguage && FindActive(rows, triggerCode, LanguageOrDefault(language)).Failure?)
    ensures FindActive(rows, triggerCode, LanguageOrDefault(language)).Success? ==>
              r == FindActive(rows, triggerCode, LanguageOrDefault(language))
    ensures r.Failure? <==> && FindActive(rows, triggerCode, LanguageOrDefault(language)).Failure?
                            && FindActive(rows, triggerCode, DefaultLanguage).Failure?
    ensures r.Failure? ==> r.error == TemplateNotFound
  {
    var lang := LanguageOrDefault(language);
    match FindActive(rows, triggerCode, lang)
    case Success(t) => Success(t)
    case Failure(e) =>
      if lang != DefaultLanguage then FindActive(rows, triggerCode, DefaultLanguage) else Failure(e)
  }

  // ---------------------------------------------------------------------
  // Parameter merge
  // ---------------------------------------------------------------------

  /**
   * `mergeParams`: the common parameters, then `CurrentYear` unless the
   * common ones define it, then the caller's parameters over all of them.
   */
  function MergedParams(common: map<string, Value>, year: int, caller: map<string, Value>): (r: map<string, Value>)
    ensures r.Keys == common.Keys + caller.Keys + {CurrentYearKey}
    ensures forall k :: k in caller ==> r[k] == caller[k]
    ensures forall k :: k in common && k !in caller ==> r[k] == common[k]
    ensures CurrentYearKey !in common && CurrentYearKey !in caller ==> r[CurrentYearKey] == Int(year)
  {
    var base := if CurrentYearKey in common then common else common[CurrentYearKey := Int(year)];
    base + caller
  }

  // ---------------------------------------------------------------------
  // Addresses
  // ---------------------------------------------------------------------

  /** The trimmed pieces, empty ones dropped, in order. */
  function NonEmptyTrimmed(parts: seq<string>): (r: seq<string>)
    ensures |r| <= |parts|
    ensures forall i :: 0 <= i < |r| ==> r[i] != "" && SpaceTrimmed(r[i])
    ensures (forall j :: 0 <= j < |parts| ==> ',' !in parts[j]) ==> forall i :: 0 <= i < |r| ==> ',' !in r[i]
  {
    if parts == [] then []
    else
      var init := NonEmptyTrimmed(parts[..|parts| - 1]);
      var last := TrimSpace(parts[|parts| - 1]);
      assert (forall j :: 0 <= j < |parts| ==> ',' !in parts[j]) ==> ',' !in last;
      init + (if last != "" then [last] else [])
  }

  /**
   * A template's comma-separated address field as the list the builder
   * receives: split on ',', each piece trimmed, empty pieces dropped.
   */
  function AddressList(field: string): (r: seq<string>)
    ensures forall i :: 0 <= i < |r| ==> r[i] != "" && ',' !in r[i] && SpaceTrimmed(r[i])
  {
    if field == "" then [] else NonEmptyTrimmed(Split(field, ','))
  }

  /** Clean pieces survive trimming and the dropping of empties unchanged. */
  lemma {:induction false} NonEmptyTrimmedOfClean(parts: seq<string>)
    requires forall i :: 0 <= i < |parts| ==> parts[i] != "" && SpaceTrimmed(parts[i])
    ensures NonEmptyTrimmed(parts) == parts
  {
    if parts != [] {
      var n := |parts| - 1;
      NonEmptyTrimmedOfClean(parts[..n]);
      TrimSpaceOfTrimmed(parts[n]);
      assert parts[..n] + [parts[n]] == parts;
    }
  }

  /**
   * Writing a list of clean addresses comma-separated into a template field
   * and reading it back gives the same list.
   */
  lemma AddressListOfJoin(addrs: seq<string>)
    requires |addrs| >= 1
    requires forall i :: 0 <= i < |addrs| ==> addrs[i] != "" && ',' !in addrs[i] && SpaceTrimmed(addrs[i])
    ensures AddressList(Join(addrs, ',')) == addrs
  {
    assert Join(addrs, ',') != "" by {
      if |addrs| > 1 {
        assert Join(addrs, ',') == addrs[0] + [','] + Join(addrs[1..], ',');
      }
    }
    SplitJoin(addrs, ',');
    NonEmptyTrimmedOfClean(addrs);
  }

  /** A field holding only separators and blanks yields no address. */
  lemma {:induction false} BlankPiecesYieldNothing(parts: seq<string>)
    requires forall i :: 0 <= i < |parts| ==> forall k :: 0 <= k < |parts[i]| ==> IsSpace(parts[i][k])
    ensures NonEmptyTrimmed(parts) == []
  {
    if parts != [] {
      var n := |parts| - 1;
      BlankPiecesYieldNothing(parts[..n]);
      assert TrimSpace(parts[n]) == [];
    }
  }

  // ---------------------------------------------------------------------
  // Envelope
  // ---------------------------------------------------------------------

  /**
   * The reply-to address: the caller's when given, else the template's when
   * it has one, else none at all.
   */
  function ReplyTo(input: Option<SendInput>, t: Template): (r: Option<string>)
    ensures r.Some? ==> r.value != ""
    ensures input.Some? && input.value.replyTo != "" ==> r == Some(input.value.replyTo)
    ensures (input.None? || input.value.replyTo == "") && t.replyTo != "" ==> r == Some(t.replyTo)
    ensures (input.None? || input.value.replyTo == "") && t.replyTo == "" ==> r.None?
  {
    var chosen := if input.Some? && input.value.replyTo != "" then input.value.replyTo
                  else if t.replyTo != "" then t.replyTo
                  else "";
    if chosen != "" then Some(chosen) else None
  }

  /**
   * The message the builder holds when it is sent: cc and bcc are the
   * template's lists followed by the caller's, verbatim.
   */
  function EnvelopeFor(t: Template, recipient: string, subject: string, body: string,
                       input: Option<SendInput>): Envelope
  {
    Envelope(
      recipient, subject, body,
      if input.Some? && input.value.from != "" then Some(input.value.from) else None,
      if input.Some? && input.value.fromName != "" then Some(input.value.fromName) else None,
      AddressList(t.cc) + (if input.Some? then input.value.cc else []),
      AddressList(t.bcc) + (if input.Some? then input.value.bcc else []),
      ReplyTo(input, t),
      if input.Some? then input.value.attachments else [])
  }

  /**
   * The envelope goes to the recipient with the rendered subject and body;
   * its cc and bcc lists start with the template's addresses, in order, and
   * end with the caller's, verbatim; a send without caller options carries
   * no sender override and no attachment.
   */
  lemma EnvelopeLayout(t: Template, recipient: string, subject: string, body: string, input: Option<SendInput>)
    ensures var env := EnvelopeFor(t, recipient, subject, body, input);
            && env.to == recipient && env.subject == subject && env.body == body
            && env.cc[..|AddressList(t.cc)|] == AddressList(t.cc)
            && env.bcc[..|AddressList(t.bcc)|] == AddressList(t.bcc)
            && (input.Some? ==> env.cc[|AddressList(t.cc)|..] == input.value.cc)
            && (input.Some? ==> env.bcc[|AddressList(t.bcc)|..] == input.value.bcc)
            && (input.None? ==> env.cc == AddressList(t.cc) && env.bcc == AddressList(t.bcc))
            && (input.None? ==> env.from.None? && env.fromName.None? && env.attachments == [])
            && env.replyTo == ReplyTo(input, t)
  {
    var env := EnvelopeFor(t, recipient, subject, body, input);
    if input.None? {
      assert AddressList(t.cc) + [] == AddressList(t.cc);
      assert AddressList(t.bcc) + [] == AddressList(t.bcc);
    }
  }

  /** The loop that hands a template's cc or bcc field to the builder. */
  method TemplateAddresses(field: string) returns (out: seq<string>)
    ensures out == AddressList(field)
  {
    out := [];
    if field != "" {
      var parts := Split(field, ',');
      for i := 0 to |parts|
        invariant out == NonEmptyTrimmed(parts[..i])
      {
        var a := TrimSpace(parts[i]);
        NonEmptyTrimmedStep(parts, i);
        if a != "" {
          out := out + [a];
        }
      }
      assert parts[..|parts|] == parts;
    }
  }

  lemma NonEmptyTrimmedStep(parts: seq<string>, i: nat)
    requires i < |parts|
    ensures NonEmptyTrimmed(parts[..i + 1])
         == NonEmptyTrimmed(parts[..i]) + (if TrimSpace(parts[i]) != "" then [TrimSpace(parts[i])] else [])
  {
    assert parts[..i + 1][..i] == parts[..i];
  }

  /** Appends `extra` one element at a time, as the builder's loops do. */
  method AppendEach<T>(list: seq<T>, extra: seq<T>) returns (out: seq<T>)
    ensures out == list + extra
  {
    out := list;
    for i := 0 to |extra|
      invariant out == list + extra[..i]
    {
      assert extra[..i + 1] == extra[..i] + [extra[i]];
      out := out + [extra[i]];
    }
    assert extra[..|extra|] == extra;
  }

  /** Builds the message step by step, as `sendWithTemplate` drives the builder. */
  method ComposeEnvelope(t: Template, recipient: string, subject: string, body: string,
                         input: Option<SendInput>) returns (env: Envelope)
    ensures env == EnvelopeFor(t, recipient, subject, body, input)
  {
    ghost var want := EnvelopeFor(t, recipient, subject, body, input);
    var from: Option<string> := None;
    if input.Some? && input.value.from != "" {
      from := Some(input.value.from);
    }
    assert from == want.from;
    var fromName: Option<string> := None;
    if input.Some? && input.value.fromName != "" {
      fromName := Some(input.value.fromName);
    }
    assert fromName == want.fromName;
    var cc := TemplateAddresses(t.cc);
    if input.Some? {
      cc := AppendEach(cc, input.value.cc);
    } else {
      assert cc + [] == cc;
    }
    assert cc == want.cc;
    var bcc := TemplateAddresses(t.bcc);
    if input.Some? {
      bcc := AppendEach(bcc, input.value.bcc);
    } else {
      assert bcc + [] == bcc;
    }
    assert bcc == want.bcc;
    var replyTo := "";
    if input.Some? && input.value.replyTo != "" {
      replyTo := input.value.replyTo;
    } else if t.replyTo != "" {
      replyTo := t.replyTo;
    }
    assert (if replyTo != "" then Some(replyTo) else None) == want.replyTo;
    var attachments: seq<Attachment> := [];
    if input.Some? {
      attachments := AppendEach(attachments, input.value.attachments);
    }
    assert attachments == want.attachments;
    env := Envelope(recipient, subject, body, from, fromName, cc, bcc,
                    if replyTo != "" then Some(replyTo) else None, attachments);
  }

  // ---------------------------------------------------------------------
  // Log lifecycle
  // ---------------------------------------------------------------------

  /** The log row `sendWithTemplate` stores before it dispatches. */
  function PendingEntry(id: nat, t: Template, recipient: string, subject: string,
                        params: map<string, Value>, now: Timestamp): SendLogRecord
  {
    SendLogRecord(id, Some(t.id), t.triggerCode, t.language, recipient, subject, params,
                  Pending, "", None, now)
  }

  /**
   * The row after the dispatch: `sent` exactly when the transport reported
   * no error, `failed` with the transport's text otherwise; nothing that
   * identifies the entry changes.
   */
  function Settled(rec: SendLogRecord, outcome: Option<string>, now: Timestamp): (r: SendLogRecord)
    ensures r.status == Sent <==> outcome.None?
    ensures r.status == Failed <==> outcome.Some?
    ensures outcome.Some? ==> r.errorMessage == outcome.value && r.sentAt == rec.sentAt
    ensures outcome.None? ==> r.sentAt == Some(now) && r.errorMessage == rec.errorMessage
    ensures SameEntry(r, rec)
  {
    if outcome.Some? then MarkedFailed(rec, outcome.value) else MarkedSent(rec, now)
  }

  /** Marks the entry by the transport's answer, as `sendWithTemplate` does after sending. */
  method SettleLog(log: SendLog, outcome: Option<string>, now: Timestamp)
    modifies log`status, log`sentAt, log`errorMessage
    ensures log.Record() == Settled(old(log.Record()), outcome, now)
  {
    if outcome.Some? {
      log.MarkFailed(outcome.value);
    } else {
      log.MarkSent(now);
    }
  }

  /** A pending row is settled into exactly one of the two terminal statuses. */
  lemma SettledIsTerminal(rec: SendLogRecord, outcome: Option<string>, now: Timestamp)
    requires rec.status == Pending
    ensures Settled(rec, outcome, now).status != Pending
    ensures Settled(rec, outcome, now).status != rec.status
  {
  }

  // ---------------------------------------------------------------------
  // Templates
  // ---------------------------------------------------------------------

  /** The row `CreateTemplate` asks the store to insert: language and status defaulted. */
  function NewTemplate(input: CreateTemplateInput): (t: Template)
    ensures t.id == 0 && t.triggerCode == input.triggerCode
    ensures t.language == LanguageOrDefault(input.language)
    ensures input.status == "" ==> t.status == StatusDraft
    ensures input.status != "" ==> t.status == input.status
    ensures && t.name == input.name && t.subject == input.subject
            && t.bodyHtml == input.bodyHtml && t.bodyText == input.bodyText
            && t.cc == input.cc && t.bcc == input.bcc && t.replyTo == input.replyTo
  {
    Template(0, input.triggerCode, LanguageOrDefault(input.language), input.name, input.subject,
             input.bodyHtml, input.bodyText, if input.status == "" then StatusDraft else input.status,
             input.cc, input.bcc, input.replyTo)
  }

  /** `u` is `t` with exactly the fields `input` carries replaced. */
  predicate PatchedFrom(u: Template, t: Template, input: UpdateTemplateInput) {
    && u.id == t.id && u.triggerCode == t.triggerCode && u.language == t.language
    && u.name == input.name.GetOr(t.name)
    && u.subject == input.subject.GetOr(t.subject)
    && u.bodyHtml == input.bodyHtml.GetOr(t.bodyHtml)
    && u.bodyText == input.bodyText.GetOr(t.bodyText)
    && u.status == input.status.GetOr(t.status)
    && u.cc == input.cc.GetOr(t.cc)
    && u.bcc == input.bcc.GetOr(t.bcc)
    && u.replyTo == input.replyTo.GetOr(t.replyTo)
  }

  /** One field of `UpdateTemplate`: the value supplied, if any, else the stored one. */
  method PatchField(current: string, given: Option<string>) returns (v: string)
    ensures v == given.GetOr(current)
  {
    v := current;
    if given.Some? {
      v := given.value;
    }
  }

  /** The field-by-field copy of `UpdateTemplate`. */
  method ApplyUpdate(t: Template, input: UpdateTemplateInput) returns (u: Template)
    ensures PatchedFrom(u, t, input)
  {
    var name := PatchField(t.name, input.name);
    var subject := PatchField(t.subject, input.subject);
    var bodyHtml := PatchField(t.bodyHtml, input.bodyHtml);
    var bodyText := PatchField(t.bodyText, input.bodyText);
    var status := PatchField(t.status, input.status);
    var cc := PatchField(t.cc, input.cc);
    var bcc := PatchField(t.bcc, input.bcc);
    var replyTo := PatchField(t.replyTo, input.replyTo);
    u := Template(t.id, t.triggerCode, t.language, name, subject, bodyHtml, bodyText,
                  status, cc, bcc, replyTo);
  }

  /** An update that carries no field leaves the template as it was. */
  lemma EmptyUpdateKeepsTemplate(u: Template, t: Template)
    requires PatchedFrom(u, t, UpdateTemplateInput(None, None, None, None, None, None, None, None))
    ensures u == t
  {
  }

  /** Replacing a row by one of the same id, trigger and language keeps the pairs unique. */
  lemma ReplaceKeepsUniquePairs(rows: seq<Template>, nextId: nat, t: Template, u: Template)
    requires TemplateIdsOrdered(rows, nextId) && UniquePairs(rows)
    requires t in rows && u.id == t.id && u.triggerCode == t.triggerCode && u.language == t.language
    ensures UniquePairs(ReplaceTemplate(rows, u))
  {
    var r := ReplaceTemplate(rows, u);
    var k :| 0 <= k < |rows| && rows[k] == t;
    forall i | 0 <= i < |rows|
      ensures r[i].triggerCode == rows[i].triggerCode && r[i].language == rows[i].language
    {
      if rows[i].id == u.id {
        assert i == k;
      }
    }
  }

  /** A row whose pair is new keeps the pairs unique when appended. */
  lemma AppendKeepsUniquePairs(rows: seq<Template>, t: Template)
    requires UniquePairs(rows) && !AnyWithPair(rows, t.triggerCode, t.language, 0)
    ensures UniquePairs(rows + [t])
  {
    var r := rows + [t];
    forall i, j | 0 <= i < j < |r|
      ensures !SamePair(r[j], r[i].triggerCode, r[i].language)
    {
      if j == |rows| {
        assert !SamePair(rows[i], t.triggerCode, t.language);
      }
    }
  }

  /** A log row appended after rows with smaller ids is the one a save of its id replaces. */
  lemma ReplaceLastLog(rows: seq<SendLogRecord>, rec: SendLogRecord, updated: SendLogRecord)
    requires forall i :: 0 <= i < |rows| ==> rows[i].id < rec.id
    requires updated.id == rec.id
    ensures ReplaceLog(rows + [rec], updated) == rows + [updated]
  {
    var r := ReplaceLog(rows + [rec], updated);
    assert forall i :: 0 <= i < |rows| ==> r[i] == rows[i];
  }

  // ---------------------------------------------------------------------
  // The service
  // ---------------------------------------------------------------------

  class Service {
    const registry: TriggerRegistry
    const templateRepo: TemplateRepository
    const logRepo: SendLogRepository
    const mailer: Mailer
    /** The application-wide parameters merged into every send. */
    const commonParams: map<string, Value>

    /** The stores are consistent and no two templates share a trigger and language. */
    ghost predicate Valid()
      reads this, registry, templateRepo, logRepo
    {
      TemplatesValid() && logRepo.Valid()
    }

    /** The part of `Valid` that sending leaves alone. */
    ghost predicate TemplatesValid()
      reads this, registry, templateRepo
    {
      registry.Valid() && templateRepo.Valid() && UniquePairs(templateRepo.rows)
    }

    constructor (registry: TriggerRegistry, templateRepo: TemplateRepository, logRepo: SendLogRepository,
                 mailer: Mailer, commonParams: map<string, Value>)
      requires registry.Valid() && templateRepo.Valid() && UniquePairs(templateRepo.rows) && logRepo.Valid()
      ensures Valid()
      ensures this.registry == registry && this.templateRepo == templateRepo
      ensures this.logRepo == logRepo && this.mailer == mailer && this.commonParams == commonParams
    {
      this.registry := registry;
      this.templateRepo := templateRepo;
      this.logRepo := logRepo;
      this.mailer := mailer;
      this.commonParams := commonParams;
    }

    /** No log row and no delivery was added. */
    twostate predicate Untouched()
      reads this, logRepo, mailer
    {
      && logRepo.rows == old(logRepo.rows) && logRepo.nextId == old(logRepo.nextId)
      && mailer.deliveries == old(mailer.deliveries)
    }

    /**
     * What `sendWithTemplate` leaves behind once subject and body rendered.
     * A refused log insert returns before anything is sent.  Otherwise one
     * message goes to the transport, after a pending log row was stored; the
     * row is then settled by the transport's answer (it stays pending when
     * the store refuses the update, whose error is ignored), and the send
     * fails exactly when the transport did.
     */
    twostate predicate Delivered(t: Template, recipient: string, subject: string, body: string,
                                 params: map<string, Value>, input: Option<SendInput>, now: Timestamp,
                                 new err: Option<Error>)
      reads this, logRepo, mailer
    {
      if logRepo.createFault.Some? then err == Some(DatabaseError(logRepo.createFault.value)) && Untouched()
      else
        var env := EnvelopeFor(t, recipient, subject, body, input);
        var outcome := mailer.respond(env);
        var pending := PendingEntry(old(logRepo.nextId), t, recipient, subject, params, now);
        && mailer.deliveries == old(mailer.deliveries) + [Delivery(env, outcome)]
        && logRepo.rows == old(logRepo.rows) + [if logRepo.updateFault.Some? then pending else Settled(pending, outcome, now)]
        && logRepo.nextId == old(logRepo.nextId) + 1
        && err == (if outcome.Some? then Some(SendFailed(outcome.value)) else None)
    }

    /**
     * What `sendWithTemplate` leaves behind: a render failure of subject or
     * body returns it before any log row is created or anything is sent.
     */
    twostate predicate Dispatched(t: Template, recipient: string, params: map<string, Value>,
                                  input: Option<SendInput>, now: Timestamp, new err: Option<Error>)
      reads this, logRepo, mailer
    {
      var subject := Render(t.subject, params);
      var body := Render(t.bodyHtml, params);
      if subject.Failure? then err == Some(subject.error) && Untouched()
      else if body.Failure? then err == Some(body.error) && Untouched()
      else Delivered(t, recipient, subject.value, body.value, params, input, now, err)
    }

    /** `sendWithTemplate`. */
    method SendWithTemplate(t: Template, recipient: string, params: map<string, Value>,
                            input: Option<SendInput>, now: Timestamp) returns (err: Option<Error>)
      requires Valid()
      modifies logRepo, mailer`deliveries
      ensures Valid()
      ensures Dispatched(t, recipient, params, input, now, err)
    {
      var subject := Render(t.subject, params);
      if subject.Failure? {
        return Some(subject.error);
      }
      var body := Render(t.bodyHtml, params);
      if body.Failure? {
        return Some(body.error);
      }
      err := Deliver(t, recipient, subject.value, body.value, params, input, now);
    }

    /** The part of `sendWithTemplate` after rendering: log, dispatch, settle. */
    method Deliver(t: Template, recipient: string, subject: string, body: string,
                   params: map<string, Value>, input: Option<SendInput>, now: Timestamp)
      returns (err: Option<Error>)
      requires Valid()
      modifies logRepo, mailer`deliveries
      ensures Valid()
      ensures Delivered(t, recipient, subject, body, params, input, now, err)
    {
      var log := new SendLog(Some(t.id), t.triggerCode, t.language, recipient, subject, params);
      var createErr := logRepo.Create(log, now);
      if createErr.Some? {
        return Some(DatabaseError(createErr.value));
      }
      ghost var pending := log.Record();
      ghost var created := logRepo.rows;
      assert pending == PendingEntry(old(logRepo.nextId), t, recipient, subject, params, now);
      assert created == old(logRepo.rows) + [pending];
      var env := ComposeEnvelope(t, recipient, subject, body, input);
      var sendErr := mailer.Send(env);
      assert mailer.deliveries == old(mailer.deliveries) + [Delivery(env, sendErr)];
      SettleLog(log, sendErr, now);
      assert logRepo.rows == created;
      ReplaceLastLog(old(logRepo.rows), pending, log.Record());
      var _ := logRepo.Update(log);
      err := if sendErr.Some? then Some(SendFailed(sendErr.value)) else None;
    }

    /** The template lookup of `Send`, with its fallback to the default language. */
    method ResolveActive(triggerCode: string, language: string) returns (found: Result<Template, Error>)
      ensures found == ResolveTemplate(templateRepo.rows, triggerCode, language)
    {
      var lang := language;
      if lang == "" {
        lang := DefaultLanguage;
      }
      found := templateRepo.GetActiveTemplate(triggerCode, lang);
      if found.Failure? && lang != DefaultLanguage {
        found := templateRepo.GetActiveTemplate(triggerCode, DefaultLanguage);
      }
    }

    /** `mergeParams`, with the year the clock would give. */
    method MergeParams(params: map<string, Value>, year: int) returns (merged: map<string, Value>)
      ensures merged == MergedParams(commonParams, year, params)
    {
      merged := map[];
      var pending := commonParams.Keys;
      while pending != {}
        invariant pending <= commonParams.Keys
        invariant merged.Keys == commonParams.Keys - pending
        invariant forall k :: k in merged ==> merged[k] == commonParams[k]
        decreases pending
      {
        var k :| k in pending;
        merged := merged[k := commonParams[k]];
        pending := pending - {k};
      }
      assert merged == commonParams;
      if CurrentYearKey !in merged {
        merged := merged[CurrentYearKey := Int(year)];
      }
      ghost var base := merged;
      pending := params.Keys;
      while pending != {}
        invariant pending <= params.Keys
        invariant merged.Keys == base.Keys + (params.Keys - pending)
        invariant forall k :: k in merged ==> merged[k] == if k in params && k !in pending then params[k] else base[k]
        decreases pending
      {
        var k :| k in pending;
        merged := merged[k := params[k]];
        pending := pending - {k};
      }
      assert merged == base + params;
    }

    /** `Send`. */
    method Send(input: SendInput, year: int, now: Timestamp) returns (err: Option<Error>)
      requires Valid()
      modifies logRepo, mailer`deliveries
      ensures Valid()
      ensures SendRejection(input.triggerCode, input.recipient, registry.Exists(input.triggerCode)).Some? ==>
                err == SendRejection(input.triggerCode, input.recipient, registry.Exists(input.triggerCode)) && Untouched()
      ensures SendRejection(input.triggerCode, input.recipient, registry.Exists(input.triggerCode)).None? &&
              ResolveTemplate(templateRepo.rows, input.triggerCode, input.language).Failure? ==>
                err == Some(TemplateNotFound) && Untouched()
      ensures SendRejection(input.triggerCode, input.recipient, registry.Exists(input.triggerCode)).None? &&
              ResolveTemplate(templateRepo.rows, input.triggerCode, input.language).Success? ==>
                Dispatched(ResolveTemplate(templateRepo.rows, input.triggerCode, input.language).value,
                           input.recipient, MergedParams(commonParams, year, input.params), Some(input), now, err)
    {
      if input.triggerCode == "" {
        return Some(InvalidInput);
      }
      if input.recipient == "" {
        return Some(NoRecipient);
      }
      if !registry.Exists(input.triggerCode) {
        return Some(TriggerNotFound);
      }
      var found := ResolveActive(input.triggerCode, input.language);
      if found.Failure? {
        return Some(found.error);
      }
      var params := MergeParams(input.params, year);
      err := SendWithTemplate(found.value, input.recipient, params, Some(input), now);
    }

    /**
     * `TestSend`: renders with the declared examples, `CurrentYear` set to
     * the year, and sends to `recipient` with no caller options.
     */
    method TestSend(id: nat, recipient: string, year: int, now: Timestamp) returns (err: Option<Error>)
      requires Valid()
      modifies logRepo, mailer`deliveries
      ensures Valid()
      ensures recipient == "" ==> err == Some(NoRecipient) && Untouched()
      ensures recipient != "" && templateRepo.GetByID(id).Failure? ==> err == Some(TemplateNotFound) && Untouched()
      ensures recipient != "" && templateRepo.GetByID(id).Success? ==>
                var t := templateRepo.GetByID(id).value;
                Dispatched(t, recipient, ExampleMap(registry.GetAllParams(t.triggerCode))[CurrentYearKey := Int(year)],
                           None, now, err)
    {
      if recipient == "" {
        return Some(NoRecipient);
      }
      var found := templateRepo.GetByID(id);
      if found.Failure? {
        return Some(found.error);
      }
      var t := found.value;
      var params := registry.GetAllParams(t.triggerCode);
      var examples := BuildExampleParams(params);
      examples := examples[CurrentYearKey := Int(year)];
      err := SendWithTemplate(t, recipient, examples, None, now);
    }

    /**
     * `PreviewTemplate`: subject, HTML body and, when the template has one,
     * text body, each rendered against the trigger's example values; the
     * first failure is the result.
     */
    method PreviewTemplate(id: nat) returns (r: Result<PreviewResult, Error>)
      ensures templateRepo.GetByID(id).Failure? ==> r == Failure(TemplateNotFound)
      ensures templateRepo.GetByID(id).Success? ==>
                var t := templateRepo.GetByID(id).value;
                var examples := ExampleMap(registry.GetAllParams(t.triggerCode));
                var subject := Render(t.subject, examples);
                var html := Render(t.bodyHtml, examples);
                var text := if t.bodyText == "" then Success("") else Render(t.bodyText, examples);
                && (r.Success? <==> subject.Success? && html.Success? && text.Success?)
                && (r.Success? ==> r.value == PreviewResult(subject.value, html.value, text.value))
                && (subject.Failure? ==> r == Failure(subject.error))
                && (subject.Success? && html.Failure? ==> r == Failure(html.error))
                && (subject.Success? && html.Success? && text.Failure? ==> r == Failure(text.error))
                && (r.Failure? ==> r.error.TemplateRender? || r.error == TemplateNotFound)
    {
      var found := templateRepo.GetByID(id);
      if found.Failure? {
        return Failure(found.error);
      }
      var t := found.value;
      var params := registry.GetAllParams(t.triggerCode);
      var subject := Preview(t.subject, params);
      if subject.Failure? {
        return Failure(subject.error);
      }
      var html := Preview(t.bodyHtml, params);
      if html.Failure? {
        return Failure(html.error);
      }
      var text := "";
      if t.bodyText != "" {
        var rendered := Preview(t.bodyText, params);
        if rendered.Failure? {
          return Failure(rendered.error);
        }
        text := rendered.value;
      }
      r := Success(PreviewResult(subject.value, html.value, text));
    }

    /**
     * `CreateTemplate`: rejects an unknown trigger and an existing
     * trigger/language pair, defaults language and status, and stores the
     * new row under the next id.
     */
    method CreateTemplate(input: CreateTemplateInput) returns (r: Result<Template, Error>)
      requires Valid()
      modifies templateRepo
      ensures Valid()
      ensures !registry.Exists(input.triggerCode) ==>
                r == Failure(TriggerNotFound) && templateRepo.rows == old(templateRepo.rows)
      ensures registry.Exists(input.triggerCode) &&
              AnyWithPair(old(templateRepo.rows), input.triggerCode, LanguageOrDefault(input.language), 0) ==>
                r == Failure(TemplateExists) && templateRepo.rows == old(templateRepo.rows)
      ensures registry.Exists(input.triggerCode) &&
              !AnyWithPair(old(templateRepo.rows), input.triggerCode, LanguageOrDefault(input.language), 0) ==>
                && (templateRepo.createFault.Some? ==>
                      r == Failure(DatabaseError(templateRepo.createFault.value))
                      && templateRepo.rows == old(templateRepo.rows))
                && (templateRepo.createFault.None? ==>
                      && r == Success(NewTemplate(input).(id := old(templateRepo.nextId)))
                      && templateRepo.rows == old(templateRepo.rows) + [r.value])
    {
      if !registry.Exists(input.triggerCode) {
        return Failure(TriggerNotFound);
      }
      var language := input.language;
      if language == "" {
        language := DefaultLanguage;
      }
      if templateRepo.ExistsByTriggerAndLanguage(input.triggerCode, language, 0) {
        return Failure(TemplateExists);
      }
      var status := input.status;
      if status == "" {
        status := StatusDraft;
      }
      var t := Template(0, input.triggerCode, language, input.name, input.subject, input.bodyHtml,
                        input.bodyText, status, input.cc, input.bcc, input.replyTo);
      assert t == NewTemplate(input);
      AppendKeepsUniquePairs(templateRepo.rows, t.(id := templateRepo.nextId));
      var saved := templateRepo.Create(t);
      if saved.Failure? {
        return Failure(DatabaseError(saved.error));
      }
      r := Success(saved.value);
    }

    /**
     * `UpdateTemplate`: copies onto the stored row exactly the fields the
     * input carries and saves it; a missing id is "template not found".
     */
    method UpdateTemplate(id: nat, input: UpdateTemplateInput) returns (r: Result<Template, Error>)
      requires Valid()
      modifies templateRepo`rows
      ensures Valid()
      ensures old(templateRepo.GetByID(id)).Failure? ==>
                r == Failure(TemplateNotFound) && templateRepo.rows == old(templateRepo.rows)
      ensures old(templateRepo.GetByID(id)).Success? && templateRepo.updateFault.Some? ==>
                r == Failure(DatabaseError(templateRepo.updateFault.value)) && templateRepo.rows == old(templateRepo.rows)
      ensures old(templateRepo.GetByID(id)).Success? && templateRepo.updateFault.None? ==>
                && r.Success? && PatchedFrom(r.value, old(templateRepo.GetByID(id)).value, input)
                && templateRepo.rows == ReplaceTemplate(old(templateRepo.rows), r.value)
    {
      var found := templateRepo.GetByID(id);
      if found.Failure? {
        return Failure(found.error);
      }
      var t := found.value;
      var u := ApplyUpdate(t, input);
      ReplaceKeepsUniquePairs(templateRepo.rows, templateRepo.nextId, t, u);
      var saveErr := templateRepo.Update(u);
      if saveErr.Some? {
        return Failure(DatabaseError(saveErr.value));
      }
      r := Success(u);
    }
  }
}
