/** The service's input and output records (types.go). */
module Types {
  import opened Wrappers
  import opened TemplateModel

  /**
   * A parameter value (`any` in the source).  Strings and integers are the
   * kinds the pipeline produces and its tests exercise.
   */
  datatype Value = Str(text: string) | Int(number: int)

  /** An attachment; its bytes are opaque to the pipeline. */
  datatype Attachment = Attachment(filename: string, content: seq<bv8>, contentType: string)

  /** `SendInput`.  `subject` is declared by the source but never read. */
  datatype SendInput = SendInput(
    triggerCode: string,
    recipient: string,
    language: string,
    params: map<string, Value>,
    cc: seq<string>,
    bcc: seq<string>,
    replyTo: string,
    from: string,
    fromName: string,
    subject: string,
    attachments: seq<Attachment>)

  /** `CreateTemplateInput`: an empty language or status means "use the default". */
  datatype CreateTemplateInput = CreateTemplateInput(
    triggerCode: string,
    language: string,
    name: string,
    subject: string,
    bodyHtml: string,
    bodyText: string,
    status: TemplateStatus,
    cc: string,
    bcc: string,
    replyTo: string)

  /** `UpdateTemplateInput`: `None` stands for a nil pointer, "leave as is". */
  datatype UpdateTemplateInput = UpdateTemplateInput(
    name: Option<string>,
    subject: Option<string>,
    bodyHtml: Option<string>,
    bodyText: Option<string>,
    status: Option<TemplateStatus>,
    cc: Option<string>,
    bcc: Option<string>,
    replyTo: Option<string>)

  /** `PreviewResult`. */
  datatype PreviewResult = PreviewResult(subject: string, bodyHtml: string, bodyText: string)
}
