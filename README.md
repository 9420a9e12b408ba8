# EnvioNF document intake form — a Dafny model

EnvioNF is a small web form for a condominium's service providers. A provider
enters their name, picks a service type, optionally gives a WhatsApp number,
and uploads invoices and receipts. The form checks the submission and mails
the files to the condominium's address. The whole program is `app.py`. This
project models its logic and proves properties of it:

- `Phone` — `formatar_telefone`. It keeps the digits of the input and lays out
  10 or 11 of them as `(DD) DDDD-DDDD` or `(DD) DDDDD-DDDD`. Any other input is
  passed through, and an empty or absent input gives `""`. The layouts are
  proved against an independent reference: a display mask whose holes are
  filled with the digits in order.
- `Validation` — the checks inside `main`, pulled out over `(nome, servico,
  arquivos)`. It builds an ordered list of messages by appending: blank name,
  no service, no file, then one message per file over 10 MiB. No check skips
  another. `Validate` is the imperative list-building code, split into its
  field checks and its size loop. `ValidationErrors` is the specification it
  is proved against, with the error-list properties proved about it.
- `Mail` — the message `enviar_email` builds (the value `Email`). It has From, To, a subject, a
  text part that reports the fields, and one binary part per file that is not
  `None`. `MultipartMessage` is the mutable message object (headers set by
  assignment, parts added by `Attach`). `Compose` fills it in. `SendEmail`
  composes the message and returns the relay's success or failure.
- `Workflow` — one run of `main` for a browser session. `Session` holds the
  `enviado` flag of `st.session_state`; `Render` runs one page render (one run of `main`). The
  `Transition` function specifies it, and lemmas about it state when the flag
  goes up and down.
- `Common` — `Option`, `byte` and the uploaded-file record `(name, size, bytes)`.

Parameters stand in for the outside world:
- The outcome of everything inside `enviar_email`'s `try` that the model does not
  compute is `relayFailure: Option<string>`. `None` means the secrets lookups, the
  file reads, the connection, STARTTLS, login, `as_string`, `sendmail` and `quit`
  all returned normally. `Some(reason)` carries the text of the first exception.
- The sender and recipient addresses and the password are a `Config` value.
- The body's date and time is a `timestamp` string.
- The button pressed in a run is an `Event`.

## Model

| member | source | states |
|---|---|---|
| `Phone.IsDigit` | app.py:121 | definition: the characters `str.isdigit` keeps, restricted to ASCII `0`-`9` (see Left out); used by `Digits` and its lemmas |
| `Phone.Digits` | app.py:121 | the digit characters of the input, all digits, no more of them than input characters |
| `Phone.DigitsIgnoreNonDigit` | app.py:121 | inserting a non-digit character anywhere in the input leaves the extracted digits unchanged |
| `Phone.FormatPhone` | app.py:118-126 | absent or empty input gives `""`; a non-empty input whose digit count is neither 10 nor 11 is returned unchanged |
| `Phone.MobileLayout` | app.py:123 | the mask `(##) #####-####` filled with 11 digits is `"(" + d[..2] + ") " + d[2..7] + "-" + d[7..]` |
| `Phone.LandlineLayout` | app.py:125 | the mask `(##) ####-####` filled with 10 digits is `"(" + d[..2] + ") " + d[2..6] + "-" + d[6..]` |
| `Phone.FormatMobile` | app.py:121-123 | an input with exactly 11 digits, among any other characters, formats as the mobile mask filled with those digits in their original order |
| `Phone.FormatLandline` | app.py:121-125 | an input with exactly 10 digits formats as the landline mask filled with those digits in order |
| `Phone.FormatKeepsDigits` | app.py:118-126 | the output holds exactly the digits of the input, in the same order (none for an absent input) |
| `Phone.FormatIdempotent` | app.py:118-126 | formatting an already formatted number returns it unchanged |
| `Validation.IsSpace` | app.py:207 | definition: the ASCII characters `str.strip()` removes, namely space, U+0009 to U+000D and U+001C to U+001F |
| `Validation.TrimStart` | app.py:207 | the result is a suffix of the input; everything removed is whitespace; the result does not start with whitespace |
| `Validation.TrimEnd` | app.py:207 | the result is a prefix of the input; everything removed is whitespace; the result does not end with whitespace |
| `Validation.Trim` | app.py:207 | `strip()`: the result is a contiguous slice of the input with only whitespace before and after it, neither of its ends is whitespace, and it is empty exactly when the input is all whitespace |
| `Validation.Message` | app.py:208-217 | definition: the four texts appended to `erros`; `MessageInjective` proves that different findings give different texts |
| `Validation.Messages` | app.py:206-221 | definition: one text per finding, in order (the list shown at app.py:220-221); `MessagesInjective` proves the texts determine the findings |
| `Validation.SizeMessageNamesFile` | app.py:217 | the size message contains the file's name at a fixed place, so the name can be read back |
| `Validation.MessageInitial` | app.py:208-217 | only the size message starts with `A` |
| `Validation.MessageInjective` | app.py:208-217 | two different findings never show the same text |
| `Validation.MessagesInjective` | app.py:206-221 | the list of texts shown determines the list of findings |
| `Validation.OversizeErrors` | app.py:214-217 | definition of the size loop: one `FileTooLarge` per file over the limit, in order; proved against `OversizedIndices` by `OversizeErrorsPerFile` |
| `Validation.ValidationErrors` | app.py:206-217 | definition of the validator as a function: the three field findings, then the size findings; `Validate` is proved equal to it |
| `Validation.OversizedIndices` | app.py:215-216 | reference for the size check: ascending positions, each of an oversized file, covering every oversized file |
| `Validation.OversizeErrorsPerFile` | app.py:214-217 | exactly one size finding per oversized file, in upload order, each naming its file |
| `Validation.OversizeErrorsAreSizeFindings` | app.py:214-217 | the size loop adds only size findings |
| `Validation.NoOversizeErrorsIff` | app.py:214-217 | no size finding exactly when every file is at most 10,485,760 bytes |
| `Validation.PassesChecks` | app.py:206-217 | definition: the acceptance condition stated on the inputs themselves (a non-whitespace character in the name, a service, a file, every size within the limit); `ValidationAcceptsIff` ties it to the finding list |
| `Validation.ValidationAcceptsIff` | app.py:206-217 | the list is empty exactly when `PassesChecks` holds, that is, when the name has a non-whitespace character, a service is chosen, some file is present and every file is at most 10,485,760 bytes |
| `Validation.FieldChecksIndependent` | app.py:207-212 | each field finding is present exactly when its own check fails, whatever the other checks find (no short-circuit) |
| `Validation.OversizeErrorsNameFiles` | app.py:214-217 | a file name gets a size finding exactly when some file of that name is over the limit |
| `Validation.SizeCheckReportsEveryOversizedFile` | app.py:206-217 | the same holds for the whole finding list, whatever the field checks find |
| `Validation.ValidationErrorsOrdered` | app.py:206-217 | findings follow the check order: at most one each of name, service and file, in that order, and every size finding after all of them |
| `Validation.SizeLimitBoundary` | app.py:216 | a file of exactly 10 MiB gets no finding; one byte more gets a finding naming it |
| `Validation.EmptyFormFindings` | app.py:206-212 | an empty name, no service and no file give exactly the three messages, in order |
| `Validation.CheckFields` | app.py:206-212 | the three appends produce the messages of the field findings, in order |
| `Validation.CheckSizes` | app.py:214-217 | the loop appends the messages of the size findings to the list it is given |
| `Validation.Validate` | app.py:206-217 | the list built equals the messages of `ValidationErrors`; it depends only on its inputs, so running it again gives the same list |
| `Mail.Subject` | app.py:67 | definition: `Documentos - {nome} ({servico})`; `SubjectMentions` proves each piece can be read back |
| `Mail.SubjectMentions` | app.py:67 | the subject is `Documentos - ` followed by the name, ` (`, the service and `)`; each piece can be read back at its place |
| `Mail.Disposition` | app.py:98-101 | definition: the Content-Disposition header `attachment; filename= ` followed by the file name; `DispositionRoundTrip` proves the name can be read back |
| `Mail.DispositionFileName` | app.py:98-101 | a header read back as a file name is the fixed prefix followed by that name |
| `Mail.DispositionRoundTrip` | app.py:95-101 | the Content-Disposition header stored in a file's attachment yields that file's name when read back |
| `Mail.AttachmentOf` | app.py:91-101 | definition: the attachment built for one file, with its name, `application/octet-stream`, its Content-Disposition header and its bytes |
| `Mail.PresentFiles` | app.py:88-89 | definition: the entries that are not `None`, in order; its lemmas are `PresentFilesAppend` and `PresentFilesMembers` |
| `Mail.PresentFilesAppend` | app.py:88-89 | dropping the `None` entries keeps the order of what remains |
| `Mail.PresentFilesMembers` | app.py:88-89 | a file is attached exactly when it occurs in the list |
| `Mail.Uploads` | app.py:232 | definition: main's list, each uploaded file wrapped as an entry, in order; `PresentFilesOfUploads` proves none is dropped |
| `Mail.PresentFilesOfUploads` | app.py:88-89 | with main's list, no file is dropped |
| `Mail.AttachmentParts` | app.py:88-102 | definition of the attachment loop: one part per entry that is not `None`, appended in order |
| `Mail.AttachmentPartsFollowFiles` | app.py:88-102 | the attachment parts are the non-`None` files in order, each carrying that file's name, the type `application/octet-stream`, the Content-Disposition header naming the file, and the file's bytes |
| `Mail.ExpectedMail` | app.py:63-102 | definition of the composed message: From, To, the subject, the text part counting `len(arquivos)`, then the attachment parts; `Compose` is proved to build it |
| `Mail.MailOfUploads` | app.py:63-102 | with main's list: From is the sender, To the recipient, the subject is built from the given name and service, the text part comes first with a count equal to the number of files, then one attachment per file in order |
| `Mail.MultipartMessage.constructor` | app.py:64 | the From, To and Subject fields start empty and there are no parts |
| `Mail.MultipartMessage.Attach` | app.py:85 | appends one part and leaves the headers unchanged |
| `Mail.Compose` | app.py:63-102 | the filled-in message equals `ExpectedMail`: headers, the text part reporting `len(arquivos)`, the attachment loop's parts |
| `Mail.SendEmail` | app.py:54-115 | hands over the composed message; success exactly when nothing in the `try` raised, with the fixed success text, or the failure text followed by the exception's text |
| `Workflow.ProviderDataOf` | app.py:223-227 | definition of `dados_prestador`: the trimmed name, the service and the formatted phone |
| `Workflow.Transition` | app.py:135-238 | definition of one run as a function of the old flag, the button pressed, the form and the send outcome; `Session.Render` is proved to follow it |
| `Workflow.FlagRaisedOnlyBySuccessfulSend` | app.py:204-236 | from an unsent session the flag goes up exactly when a submitted form passes every check and the relay succeeds |
| `Workflow.ResetClearsFlag` | app.py:139-145 | once sent, the flag stays up until the reset button, which clears it |
| `Workflow.RejectionShowsAllFindings` | app.py:204-221 | a submitted form that fails any check is rejected, showing the non-empty list of all findings, and the flag stays down |
| `Workflow.SentMailMatchesForm` | app.py:222-236 | a sent message is addressed to the configured recipient, uses the trimmed name, the service and the formatted phone, and carries one attachment per uploaded file (at least one), in order, with its name and bytes |
| `Workflow.FailedSendCanBeRetried` | app.py:232-238 | for a form that passes every check, a failed send leaves the flag down and shows the failure text; the same form then succeeds once the relay does |
| `Workflow.Session.constructor` | app.py:136 | a new session has no `enviado` key |
| `Workflow.Session.Render` | app.py:135-238 | one run sets the key if absent, then sets the flag and returns the screen that `Transition` gives for the old flag |

## Left out

- Page setup, CSS, layout, the sidebar, the file preview and its MB display (app.py:13-51, 130-202, 241-258): presentation only.
- The SMTP conversation (connect, STARTTLS, login, `as_string`, sendmail, quit; app.py:105-110) is I/O. It is reduced to one success or failure result passed in as `relayFailure`.
- Mail.SendEmail: does not tell apart where in the `try` an exception came from. In the source, a `quit()` that raises after `sendmail` has delivered the message still returns failure. The flag then stays down, and submitting again sends the message a second time. The model has this too, as `relayFailure == Some(..)`, but no lemma singles out the "delivered, yet reported as failed" case.
- The secrets lookups (app.py:59-61) are external configuration and become the `Config` parameter. A missing secret raises inside the `try` in the source. In the model that case is one more kind of `relayFailure`.
- `datetime.now()` (app.py:77) reads the clock, so the timestamp is a parameter.
- The body's exact template text (app.py:70-83) is not modelled. The body is the record of the fields it reports.
- MIME serialisation, base64 encoding and the read/seek of the file object (app.py:85, 91-92, 95-97, 108) are library calls on I/O objects. An attachment is the file's name, the fixed content type `application/octet-stream` (app.py:95), the Content-Disposition header built from the name (app.py:98-101) and the file's bytes. The `Content-Type: multipart/mixed` and `MIME-Version` headers that `MIMEMultipart()` sets by itself are not modelled.
- A file whose read fails is not modelled, because reading is I/O. In the source it aborts the whole send as a caught exception.
- `st.rerun()` is not modelled as a second run. `Render` returns `ResetRequested` or `Sent`, and the next call to `Render` is that second run.
- The accepted file types (app.py:181) are enforced by the uploader library, not by this code.
- The service list of the select box (app.py:157-168) is UI. The validator only tests whether the choice is empty, and so does the model.
- `None` for the uploaded-file list is not modelled: the uploader returns a list, and the size loop at app.py:215 would fail on `None`.
- The body counts `len(arquivos)` (app.py:79), and `None` entries count too, while only non-`None` entries are attached. `ExpectedMail` keeps this as written. For the list main actually passes, the two numbers agree (`Mail.MailOfUploads`).
- Phone.Digits: treats only ASCII `0`-`9` as digits. Python's `str.isdigit` also accepts other Unicode digit characters, such as superscripts and other scripts' digits.
- Validation.Trim: strips only the ASCII characters Python counts as whitespace (space, tab, line feed, vertical tab, form feed, carriage return and the separators U+001C to U+001F). Python's `str.strip()` also strips non-ASCII whitespace, such as U+0085, U+00A0 and U+2028.
- Phone.IsDigit: the same ASCII restriction as `Phone.Digits`.
- Validation.IsSpace: the same ASCII restriction as `Validation.Trim`.
- The `❌ ` prefix that `st.error` shows before each rejection message and before the failure text (app.py:221, 238) is presentation. `Rejected` and `SendFailed` carry the bare texts.
