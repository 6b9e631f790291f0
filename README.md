# E-mail notification core, modelled in Dafny

This project models the send pipeline of the `email_notification` Go module.

- **Trigger registry.** Maps trigger codes to their definitions and declared parameters, plus a list of common parameters shared by every trigger.
- **Template engine.** Renders `{{.Name}}` placeholders against a parameter map. Its preview variant renders against the declared example values.
- **Service.**
  - Validates a send and resolves the enabled template, with a single fallback to the default language `zh-CN`.
  - Merges the parameters in three tiers: common, then `CurrentYear`, then the caller's.
  - Composes the envelope. Cc and bcc are the template's comma-separated list, trimmed and without empty entries, followed by the caller's additions. Reply-to is chosen by precedence.
  - Stores a `pending` send-log row before dispatch. It then settles that row into exactly one of `sent` or `failed`.
  - Also covers test sends, previews, template creation (with its defaults and duplicate check) and the copy-on-presence partial update.
- **Stores.** The two GORM repositories are in-memory tables: their lookups, filters and paging arithmetic.
- **Record helpers.** `SendLog.MarkSent` / `MarkFailed` and `Template.IsEnabled`.

Layout (one module per file):

| file | module | source |
|---|---|---|
| `wrappers.dfy` | `Wrappers` | `Option` and `Result` |
| `errors.dfy` | `Errors` | error kinds of `errors.go` |
| `strings.dfy` | `Strings` | `strings.Split` / `strings.TrimSpace` and decimal printing |
| `model_template.dfy` | `TemplateModel` | `model/template.go` |
| `model_send_log.dfy` | `SendLogModel` | `model/send_log.go` |
| `types.dfy` | `Types` | the records of `types.go` |
| `trigger.dfy` | `Trigger` | `trigger.go` |
| `template_engine.dfy` | `TemplateEngine` | `template_engine.go` |
| `repository.dfy` | `Repository` | `repository_gorm.go` |
| `transport.dfy` | `Transport` | the mail builder and transport |
| `service.dfy` | `EmailService` | `service.go` |

How state is modelled:

- State the Go code mutates stays mutable state:
  - the registry, the two stores, the mail transport and the service are classes;
  - a send-log entry is a class, because `sendWithTemplate` marks it in place.
- The loops of the source are methods with loop invariants.
  - The preview-map loop, the cc/bcc loops and the two map loops of `mergeParams` are each proved equal to a specification function (`ExampleMap`, `AddressList`, `AppendEach`'s concatenation, `MergedParams`). The properties are proved about those functions.
  - `GetAll` and `Codes` walk a Go map, whose order is unspecified. Their contracts state that each registered entry comes back exactly once, not a particular order.
- The clock is a pair of parameters: `year` for `time.Now().Year()`, and `now` for the instant stamped on a log row.
- The transport's answer is a fixed function of the envelope. `None` means success; `Some(text)` is the error text.

Two behaviours of the code are easy to misread; the model follows the code:

- **A missing parameter.** A placeholder naming a missing parameter does not render as empty text. The code uses Go's `text/template` with no missing-key option, which prints `<no value>`. The model prints `NoValue` ("<no value>"), and no property depends on that text.
- **The text body.** `sendWithTemplate` does not render the text body, even when the template has one. The code renders only the subject and the HTML body (service.go:283-292), and only `PreviewTemplate` renders the text body. The model does the same.

## Model

| member | source | states |
|---|---|---|
| Strings.Split | service.go:325 | `strings.Split` yields at least one piece and no piece contains the separator |
| Strings.JoinSplit | service.go:325 | joining the pieces of a split with the separator gives the original text back |
| Strings.SplitJoin | service.go:325 | splitting the join of separator-free pieces gives exactly those pieces back, in order |
| Strings.TrimSpace | service.go:326 | `strings.TrimSpace` yields a stretch `s[i..j]` of the input such that everything before `i` and from `j` on is white space, and neither end of the result is white space |
| Strings.TrimSpaceOfTrimmed | service.go:326 | trimming text that is already trimmed changes nothing |
| Strings.NatText | template_engine.go:24 | a non-negative number prints as decimal digits with no leading zero |
| Strings.NatTextRoundTrip | template_engine.go:24 | reading the printed digits back gives the number |
| Strings.IntText | template_engine.go:24 | an integer prints as a non-empty text with a leading '-' exactly when it is negative; a non-negative one prints as its decimal digits, a negative one as '-' followed by its magnitude's digits |
| TemplateModel.StatusesDistinct | model/template.go:12-16 | draft, enabled and disabled are three different statuses |
| TemplateModel.IsEnabledOnlyByStatus | model/template.go:42-44 | a template is enabled iff its status is "enabled"; drafts and disabled ones are not; no other field matters |
| TemplateModel.Template.IsEnabled | model/template.go:42-44 | definition: the status is "enabled" |
| SendLogModel.MarkedSent | model/send_log.go:35-39 | after `MarkSent`: status sent, sent-at set to the time, error text and every identifying field unchanged |
| SendLogModel.MarkedFailed | model/send_log.go:42-45 | after `MarkFailed(m)`: status failed, error text m, sent-at and every identifying field unchanged |
| SendLogModel.SendLog.MarkSent | model/send_log.go:35-39 | the entry's new fields are those of `MarkedSent` applied to its old ones |
| SendLogModel.SendLog.MarkFailed | model/send_log.go:42-45 | the entry's new fields are those of `MarkedFailed` applied to its old ones |
| SendLogModel.SendLog.constructor | service.go:296-304 | a new entry is pending, with no id, no error text and no sent-at |
| Trigger.TriggerRegistry.constructor | trigger.go:30-35 | a new registry has no triggers and an empty common list |
| Trigger.TriggerRegistry.Get | trigger.go:52-57 | found iff the code is registered, and the definition found carries that code |
| Trigger.TriggerRegistry.Exists | trigger.go:72-75 | holds exactly when `Get` finds the code |
| Trigger.TriggerRegistry.Register | trigger.go:38-49 | `Get(code)` then yields the new definition whole (last write wins); every other code and the common list are unchanged |
| Trigger.TriggerRegistry.GetAll | trigger.go:60-69 | one definition per registered code, each the one filed under it, no code twice |
| Trigger.TriggerRegistry.Codes | trigger.go:78-87 | every registered code exactly once, and nothing else |
| Trigger.TriggerRegistry.SetCommonParams | trigger.go:90-101 | `GetCommonParams` then yields the given list; the triggers are unchanged |
| Trigger.TriggerRegistry.GetCommonParams | trigger.go:96-101 | definition: the registry's common parameter list |
| Trigger.TriggerRegistry.GetAllParams | trigger.go:104-117 | common parameters followed by the trigger's own, both in order; only the common ones for an unknown code |
| TemplateEngine.CloseAt | template_engine.go:18 | the position of the first "}}" of an action's text, or none when it is never closed |
| TemplateEngine.FieldName | template_engine.go:18 | an action yields a field only when its text is blanks, '.', a valid name, blanks: the result `n` is a valid name and `"." + n` is a stretch of the action with only blanks outside it |
| TemplateEngine.Parse | template_engine.go:18-21 | every parse failure is a template render error |
| TemplateEngine.Render | template_engine.go:17-29 | fails exactly when the parse fails, whatever the parameters; a failure is a render error and carries no text |
| TemplateEngine.Execute | template_engine.go:23-28 | definition: literal characters copied and each field replaced by its parameter's text, or "<no value>", in order |
| TemplateEngine.RenderStep | template_engine.go:17-29 | a character that does not open an action renders as itself in front of the rest |
| TemplateEngine.RenderLiteral | template_engine.go:17-29 | text without '{' renders verbatim in front of whatever follows |
| TemplateEngine.CloseAfter | template_engine.go:18 | "}}" after a run free of '}' closes the action right there |
| TemplateEngine.FieldNameOfDotName | template_engine.go:18 | for every valid field name (ASCII letters, digits and '_', not starting with a digit), the action text `.Name` names the field `Name` |
| TemplateEngine.ParseFieldAction | template_engine.go:18-21 | a closed field action parses to a field reference in front of the rest's parse |
| TemplateEngine.ParseDotName | template_engine.go:18-21 | the action `{{.Name}}` parses to the field `Name` in front of the parse of what follows |
| TemplateEngine.ParseUnsupportedAction | template_engine.go:18-21 | a closed action whose text is not a field reference makes the parse fail |
| TemplateEngine.StrayCharacterInName | template_engine.go:18 | a character that is not a name character, a blank or '}' after `.Name` leaves the action naming no field |
| TemplateEngine.RenderIdeographicSpaceName | template_engine.go:18-21 | "{{.A" followed by U+3000 and "}}" fails to render, as Go's lexer rejects the character |
| TemplateEngine.RenderField | template_engine.go:17-29 | `{{.Name}}` renders as the parameter's text in front of the rest |
| TemplateEngine.RenderPlain | template_engine.go:17-29 | text in which "{{" never occurs renders as itself, whatever the parameters; a lone '{' or '}' is plain text |
| TemplateEngine.RenderCssBraces | template_engine.go:17-29 | the CSS rule "p { color: red }" renders unchanged |
| TemplateEngine.RenderSubstitutes | template_engine.go:17-29 | a field between plain texts: the texts are copied and the field is replaced by its parameter's text |
| TemplateEngine.RenderSubstitutesTwo | template_engine.go:17-29 | two fields among plain texts: each is replaced and the text between them is copied |
| TemplateEngine.UnclosedActionFails | template_engine.go:18-21 | an action opened after plain text and never closed fails the render |
| TemplateEngine.RenderSimpleField | template_engine_test.go:18-23 | "Hello, {{.UserName}}!" with UserName 张三 renders "Hello, 张三!" |
| TemplateEngine.RenderTwoFields | template_engine_test.go:24-29 | "Hi {{.UserName}}, your email is {{.Email}}" renders both values |
| TemplateEngine.RenderNumberField | template_engine_test.go:30-35 | "Year: {{.Year}}" with the integer 2026 renders "Year: 2026" |
| TemplateEngine.RenderHtmlField | template_engine_test.go:36-41 | markup around a field is copied verbatim |
| TemplateEngine.RenderUnclosedAction | template_engine_test.go:42-47 | "Hello, {{.UserName" fails to render |
| TemplateEngine.ExampleMap | template_engine.go:33-40 | the preview map's keys are exactly the declared parameter names |
| TemplateEngine.ExampleValue | template_engine.go:35-39 | definition: the declared example, or the field's own `{{.Name}}` text when the example is empty |
| TemplateEngine.ExampleMapLastWins | template_engine.go:34-40 | a name maps to the example of its last declaration, or to its own placeholder `{{.Name}}` when that has none |
| TemplateEngine.BuildExampleParams | template_engine.go:33-40 | the loop builds exactly `ExampleMap` of the parameters |
| TemplateEngine.Preview | template_engine.go:32-42 | the preview is the render against `ExampleMap` of the parameters |
| TemplateEngine.PreviewOfField | template_engine.go:35-41 | in a preview, a declared field shows its example, or its own placeholder verbatim when it has none |
| Repository.NormalizePaging | repository_gorm.go:77-87 | a page below 1 becomes 1 and a size below 1 becomes 20; valid values are kept; the offset is never negative |
| Repository.TotalPages | repository_gorm.go:92-95 | the ceiling of total over page size: pages × size ≥ total, (pages − 1) × size < total when total > 0, and 0 for no rows |
| Repository.Window | repository_gorm.go:86-90 | the page holds at most `size` rows: the rows from the page's offset on, in order, and none past the end |
| Repository.Paginate | repository_gorm.go:72-103 | normalised page and size, total = number of matching rows, items = that page's window, and the ceiling page count |
| Repository.PagesCoverMatch | repository_gorm.go:86-95 | a page past the last one is empty, and no page up to the last one is |
| Repository.FindTemplate | repository_gorm.go:33-43 | the row with the id, or `TemplateNotFound` exactly when no row has it |
| Repository.FindTemplateAt | repository_gorm.go:33-43 | with ids increasing, the lookup of a stored row's id yields that row |
| Repository.FindActive | repository_gorm.go:45-57 | an enabled row of the trigger and language, or `TemplateNotFound` exactly when there is none |
| Repository.FindActiveIgnoresOthers | repository_gorm.go:45-57 | a row that is not an enabled row of the pair never changes the lookup's result |
| Repository.FindActiveFirst | repository_gorm.go:45-49 | the active lookup returns the earliest stored row that is enabled and holds the pair |
| Repository.ExistsExceptSelf | repository_gorm.go:106-119 | with unique pairs, a stored template's pair exists, but not once its own id is excluded |
| Repository.FindLog | repository_gorm.go:140-150 | the row with the id, or `SendLogNotFound` when no row has it |
| Repository.FilterTemplates | repository_gorm.go:62-70 | keeps exactly the rows meeting every non-empty condition, and no more rows than stored |
| Repository.TemplateMatches | repository_gorm.go:62-70 | definition: each non-empty condition (trigger, language, status) equals the row's field |
| Repository.FilterLogs | repository_gorm.go:155-166 | keeps exactly the rows meeting every condition given (trigger, status, start, end), and no more rows than stored |
| Repository.LogMatches | repository_gorm.go:155-166 | definition: each given condition holds: trigger and status equal, creation time within the given bounds |
| Repository.NoTemplateConditionKeepsAll | repository_gorm.go:62-70 | with no condition set, a template list sees every row in order |
| Repository.NoLogConditionKeepsAll | repository_gorm.go:155-166 | with no condition set, a log list sees every row in order |
| Repository.LogConditionsNarrow | repository_gorm.go:155-166 | a stricter log filter never lets more rows through |
| Repository.ReplaceTemplate | repository_gorm.go:25-27 | saving a row replaces the row with its id and keeps every other row |
| Repository.ReplaceLog | repository_gorm.go:136-138 | saving a log row replaces the row with its id and keeps every other row |
| Repository.TemplateRepository.constructor | repository_gorm.go:16-19 | a new store is empty, with the given write faults |
| Repository.TemplateRepository.Create | repository_gorm.go:21-23 | a refused insert changes nothing; otherwise the row is appended under the next id and handed back |
| Repository.TemplateRepository.Update | repository_gorm.go:25-27 | a refused save changes nothing; otherwise the rows are `ReplaceTemplate` of the old ones |
| Repository.TemplateRepository.GetByID | repository_gorm.go:33-43 | a stored row with that id, or `TemplateNotFound` exactly when there is none |
| Repository.TemplateRepository.GetActiveTemplate | repository_gorm.go:45-57 | a found template is a stored row that is enabled and holds the pair, and no earlier row (in id order, as `First` uses) does; "template not found" exactly when no stored row is enabled with the pair |
| Repository.TemplateRepository.ExistsByTriggerAndLanguage | repository_gorm.go:106-119 | an exclude id of 0 excludes nothing; excluding an id never finds more |
| Repository.AnyWithPair | repository_gorm.go:106-119 | definition: some stored row holds the pair and, when the exclude id is not 0, has another id |
| Repository.TemplateRepository.List | repository_gorm.go:59-104 | `Paginate` over the filtered rows: each item is a stored row meeting the filter, with ceiling page figures |
| Repository.SendLogRepository.constructor | repository_gorm.go:127-130 | a new store is empty, with the given write faults |
| Repository.SendLogRepository.Create | repository_gorm.go:132-134 | a refused insert changes nothing; otherwise the entry gets the next id and the creation time and is appended |
| Repository.SendLogRepository.Update | repository_gorm.go:136-138 | a refused save changes nothing; otherwise the rows are `ReplaceLog` of the old ones |
| Repository.SendLogRepository.GetByID | repository_gorm.go:140-150 | a stored row with that id, or `SendLogNotFound` exactly when there is none |
| Repository.SendLogRepository.List | repository_gorm.go:152-200 | `Paginate` over the filtered rows: each item is a stored row meeting the filter, with ceiling page figures |
| Transport.Mailer.Send | service.go:372 | the envelope is recorded as sent, with the transport's answer as the result |
| EmailService.SendRejection | service.go:238-249 | no trigger code gives InvalidInput, then no recipient gives NoRecipient, then an unknown trigger gives TriggerNotFound; none iff all three checks pass |
| EmailService.LanguageOrDefault | service.go:252-255 | the result is never empty, and a non-empty requested language is kept as it is; an empty one becomes zh-CN |
| EmailService.ResolveTemplate | service.go:257-267 | the enabled template in the language, else (only for a non-default language) the enabled one in zh-CN; not found iff both lookups fail |
| EmailService.MergedParams | service.go:390-409 | keys: common ∪ caller ∪ {CurrentYear}; caller values win; common values otherwise; the given year when neither defines CurrentYear |
| EmailService.NonEmptyTrimmed | service.go:325-330 | the pieces, trimmed, with empty ones dropped: none empty, all trimmed, at most as many as pieces |
| EmailService.AddressList | service.go:324-331 | a template's address field as a list: non-empty, trimmed entries that contain no comma |
| EmailService.NonEmptyTrimmedOfClean | service.go:325-330 | clean pieces pass unchanged |
| EmailService.AddressListOfJoin | service.go:324-331 | clean addresses written comma-separated into a field read back as the same list |
| EmailService.BlankPiecesYieldNothing | service.go:325-330 | pieces of blanks only yield no address |
| EmailService.ReplyTo | service.go:354-362 | the caller's reply-to if given, else the template's if set, else none; never an empty address |
| EmailService.EnvelopeLayout | service.go:310-369 | recipient, subject and body as given; cc/bcc are the template's list then the caller's verbatim; no caller options means no sender override and no attachment |
| EmailService.EnvelopeFor | service.go:310-369 | definition: the envelope the builder produces from the recipient, the rendered texts, the template's lists and reply-to, and the caller's options |
| EmailService.TemplateAddresses | service.go:324-331 | the split/trim/skip loop yields exactly `AddressList` of the field |
| EmailService.AppendEach | service.go:332-336 | appending one at a time yields the list followed by the additions |
| EmailService.ComposeEnvelope | service.go:310-369 | the builder steps produce exactly `EnvelopeFor` the template, the rendered texts and the caller's options |
| EmailService.Settled | service.go:375-379 | sent iff the transport reported no error (stamped now); failed with its text otherwise; the identifying fields are unchanged |
| EmailService.PendingEntry | service.go:296-304 | definition: a pending log row for the template's id, trigger and language, the recipient, subject and params, stamped now |
| EmailService.SettleLog | service.go:375-379 | the entry becomes `Settled` by the transport's answer |
| EmailService.SettledIsTerminal | service.go:375-379 | a pending entry always leaves `pending` |
| EmailService.NewTemplate | service.go:73-103 | language defaults to zh-CN and status to draft; every other field is copied from the input |
| EmailService.PatchField | service.go:119-121 | the supplied value if any, else the stored one |
| EmailService.ApplyUpdate | service.go:119-142 | exactly the supplied fields change; id, trigger and language never do |
| EmailService.EmptyUpdateKeepsTemplate | service.go:119-142 | an update that supplies no field leaves the template as it was |
| EmailService.ReplaceKeepsUniquePairs | service.go:113-149 | an update (same id, trigger and language) keeps trigger/language pairs unique |
| EmailService.AppendKeepsUniquePairs | service.go:78-85 | creating a template whose pair is not yet taken keeps pairs unique |
| EmailService.ReplaceLastLog | service.go:380 | saving the newest entry replaces exactly the last log row |
| EmailService.Service.constructor | service.go:26-36 | given valid parts whose stored templates have unique trigger/language pairs, the service is Valid and holds the given registry, stores, transport and common parameters |
| EmailService.Service.SendWithTemplate | service.go:281-387 | a render failure of subject or body returns it with nothing logged or sent; otherwise `Delivered` holds |
| EmailService.Service.Deliver | service.go:294-386 | a refused log insert returns DatabaseError with nothing sent; otherwise exactly one message goes out after a pending row is stored, the row is settled by the answer (stays pending if the update is refused), and SendFailed is returned iff the transport failed |
| EmailService.Service.ResolveActive | service.go:251-267 | the two-step lookup equals `ResolveTemplate` over the stored rows |
| EmailService.Service.MergeParams | service.go:390-409 | the two map loops yield exactly `MergedParams` |
| EmailService.Service.Send | service.go:237-273 | validation failures, then template-not-found, touch no log and send nothing; otherwise the resolved template is dispatched with the merged parameters and the caller's options |
| EmailService.Service.TestSend | service.go:208-232 | no recipient, then a missing template, rejected untouched; otherwise the template is dispatched with the example map plus CurrentYear and no caller options |
| EmailService.Service.PreviewTemplate | service.go:174-205 | missing id gives TemplateNotFound; otherwise subject, HTML body and (if present) text body rendered with the examples; the first render failure among subject, HTML body and text body is the result |
| EmailService.Service.CreateTemplate | service.go:67-110 | rejects an unknown trigger, then a taken trigger/language pair; otherwise stores `NewTemplate` under the next id (a refused insert is a DatabaseError); pairs stay unique |
| EmailService.Service.UpdateTemplate | service.go:113-149 | missing id gives TemplateNotFound; otherwise the stored row is replaced by the patched one (a refused save is a DatabaseError); pairs stay unique |

## Left out

- The registry's `sync.RWMutex`: operations run one at a time; concurrency is not modelled.
- `time.Now()`: the year and the timestamp are parameters.
- The JSON snapshot of the parameters in a log row is the parameter map itself; the discarded marshal error is not modelled.
- TemplateEngine.FieldName: a field name may hold only ASCII letters, digits and '_'. Go's lexer also accepts non-ASCII Unicode letters and digits. The model reports such a name (say `{{.名}}`) as an unsupported action, where Go renders it. Deciding `unicode.IsLetter` would need the Unicode tables.
- TemplateEngine.Render: only the `{{.Name}}` field action of Go's `text/template` is modelled. Any other action, pipeline or function call is a parse failure here. No property depends on the text printed for a missing key.
- TemplateEngine.Render: parameter values are strings or integers; other kinds that `map[string]any` can hold are not modelled.
- The three-placeholder preview case of the engine's tests (template_engine_test.go:70-94) is not stated on its literal text. `PreviewOfField` states the general fact it checks.
- Repository.TemplateRepository.List: rows are kept in id order, and the `created_at DESC` ordering of both list queries is not modelled.
- Repository.SendLogRepository.List: the time filters compare timestamps, not the source's textual timestamps. The status filter is one of the three statuses or absent; the source takes any text, so a filter such as "unknown" (which matches no row there) cannot be written here.
- EmailService.Service.CreateTemplate: the duplicate check (repository_gorm.go:106-119) and the insert are two separate store calls and the table has no unique constraint, so two concurrent creates can both pass the check and store the same trigger/language pair. The model runs calls one at a time; "pairs stay unique" and the `UniquePairs` part of `Service.Valid` hold only under that assumption.
- Soft delete (`DeletedAt`) and `DeleteTemplate` are not modelled.
- Read faults of the stores are not modelled: a database error from `GetByID`, `GetActiveTemplate`, `ExistsByTriggerAndLanguage` or the list count. The stores model only write faults, as a fixed error text per store.
- Repository.TemplateRepository.Update: GORM `Save` of a row whose id is not stored would insert it. The service only saves rows it has just read, so only replacement is modelled.
- Integer widths: ids are unbounded naturals (`uint` in the source), and counts, pages and page sizes are unbounded integers (`int64` / `int`). Overflow is not modelled.
- `SendAsync` always returns NotImplemented. The thin getters (`ListTriggers`, `GetTrigger`, `GetTriggerParams`, `GetRegistry`, `GetTemplate`, `ListTemplates`, `GetTemplateByTrigger`, `GetSendLogs`, `GetSendLog`) only forward to the registry or the stores modelled here.
- Error codes and messages of the `errcode` framework: error kinds are a plain datatype, and wrapped causes are kept as text.
- The mail builder of the e-mail component is reduced to the envelope it would send; attachment contents are opaque.
- `SendInput.Subject` is never read by the send path, and the recipient is passed to the builder unsplit; the model does the same.
