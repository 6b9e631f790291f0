/**
 * The persisted email template (model/template.go).  A template is a value:
 * the repository hands out copies and takes back whole rows.
 */
module TemplateModel {

  /** The status column is free text; the source names three values. */
  type TemplateStatus = string

  const StatusDraft: TemplateStatus := "draft"
  const StatusEnabled: TemplateStatus := "enabled"
  const StatusDisabled: TemplateStatus := "disabled"

  /**
   * One template row.  `id` 0 means "not yet saved"; the timestamps and the
   * soft-delete column are not part of this model.
   */
  datatype Template = Template(
    id: nat,
    triggerCode: string,
    language: string,
    name: string,
    subject: string,
    bodyHtml: string,
    bodyText: string,
    status: TemplateStatus,
    cc: string,
    bcc: string,
    replyTo: string)
  {
    /** Only an enabled template takes part in active-template resolution. */
    predicate IsEnabled() {
      status == StatusEnabled
    }
  }

  /** The three named statuses are different texts. */
  lemma StatusesDistinct()
    ensures StatusDraft != StatusEnabled
    ensures StatusDraft != StatusDisabled
    ensures StatusEnabled != StatusDisabled
  {
  }

  /**
   * A template is enabled exactly when its status is "enabled": drafts and
   * disabled templates never are, and no other field matters.
   */
  lemma IsEnabledOnlyByStatus(t: Template, u: Template)
    ensures t.IsEnabled() <==> t.status == StatusEnabled
    ensures t.status == StatusDraft || t.status == StatusDisabled ==> !t.IsEnabled()
    ensures t.status == u.status ==> t.IsEnabled() == u.IsEnabled()
  {
  }
}
