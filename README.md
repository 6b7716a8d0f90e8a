# Whistleblower report form: a Dafny model of its form-state core

The web part renders a bilingual (English/Arabic) whistleblower report form
inside a SharePoint page. Around its markup sits a small piece of form logic,
and this project models that logic and proves properties of it:

- **the field validator** (`_validateField`). The email must be empty or match
  `^[^\s@]+@[^\s@]+\.[^\s@]+$`. The message must not be blank after `trim`.
  A site must be selected. An attached file must be at most 10 MiB.
- **the application state** (`AppState`): language, mobile-menu flag, form data,
  busy flag, per-field errors and the set of touched fields. The handlers update it
  in place: language/menu/scroll clicks, file removal, input, blur and submit.
- **the submit handler**. It runs a validation pass over `email`, `message`,
  `site`, `management` and `file`, then a second file-size check that can
  never fire, then the busy flag. It normalises the payload (blank name, email and
  department become `"Anonymous"`), falls back to the default endpoint, and
  resets the form after a successful send or keeps it after a failure.
- **two string helpers**: the endpoint fallback, and the extraction of the base64
  data from the file reader's data URL (`data:[<mediatype>][;base64],<data>`,
  section 3 of RFC 2397).

Layout, one module per concern:

- `Wrappers.dfy`: `Option`.
- `Text.dfy`: the ECMAScript whitespace class, used both by the regular-expression
  escape `\s` and by `trim`. Also `trim` and `split` on one character, with
  their characterising lemmas.
- `Validation.dfy`: the error kinds, the email pattern (as the regular expression
  reads, as computed, and in words), `ValidateField` and one rule lemma per field.
- `Form.dfy`: language, form data, the submit-pass error map `FormErrors` and
  its meaning.
- `Submission.dfy`: the payload, the endpoint and the data-URL split.
- `WebPart.dfy`: class `WebPartState` with the state's fields and one method per
  handler. Each handler says exactly what its new state is and keeps the invariant
  `Valid()`: every recorded error belongs to a checked field and is that field's
  own error.

The nondeterministic parts of submission are parameters of `Submit`:
`read` is the data URL the browser's file reader produced (None when it failed),
`posted` says whether the POST went through, `configured` is the host's
endpoint setting, and `timestamp` is the opaque ISO-8601 time.
The source only awaits `fetch` and never inspects the response. So an answer
with an HTTP error status counts as a successful send (`posted` true), and the
form is reset.

The comment on the site rule calls the site required
(`src/webparts/ssamic2/Ssamic2WebPart.ts:407`), but the value is not trimmed, so a
whitespace-only site passes validation. The model follows the code; `SiteRule` proves this.

## Model

| member | source | states |
|---|---|---|
| Text.IsSpace | src/webparts/ssamic2/Ssamic2WebPart.ts:392 | the whitespace class of `\s` and `trim` lies in the BMP and contains none of the characters `@`, `.` and `,` that the email pattern and the data-URL split look for |
| Text.TrimStartDropsSpace | src/webparts/ssamic2/Ssamic2WebPart.ts:401 | what is left after dropping the leading whitespace is a suffix of the input whose dropped prefix is all whitespace and whose first character is not whitespace |
| Text.TrimEndDropsSpace | src/webparts/ssamic2/Ssamic2WebPart.ts:401 | what is left after dropping the trailing whitespace is a prefix of the input whose dropped suffix is all whitespace and whose last character is not whitespace |
| Text.Trim | src/webparts/ssamic2/Ssamic2WebPart.ts:401 | `trim` is empty exactly when the input is all whitespace, and otherwise starts and ends with non-whitespace |
| Text.TrimIsSlice | src/webparts/ssamic2/Ssamic2WebPart.ts:401 | `trim` keeps the contiguous slice of its input that starts where the leading whitespace ends, and drops only whitespace on either side |
| Text.TrimExact | src/webparts/ssamic2/Ssamic2WebPart.ts:861-863 | `trim` of whitespace + core + whitespace is exactly the core, whenever the core is empty or bounded by non-whitespace |
| Text.TrimIdempotent | src/webparts/ssamic2/Ssamic2WebPart.ts:861-863 | trimming twice is trimming once |
| Text.Split | src/webparts/ssamic2/Ssamic2WebPart.ts:996 | `split` yields at least one piece, no piece holds the separator, and joining the pieces with the separator gives back the input |
| Text.SplitAfterHead | src/webparts/ssamic2/Ssamic2WebPart.ts:996 | a separator-free head followed by the separator becomes the first piece, and the rest is split on its own |
| Text.SplitWithoutSeparator | src/webparts/ssamic2/Ssamic2WebPart.ts:996 | a string without the separator splits into itself alone |
| Text.SplitJoin | src/webparts/ssamic2/Ssamic2WebPart.ts:996 | separator-free pieces are recovered by splitting their join (the other half of the round trip) |
| Validation.IsEmailAddress | src/webparts/ssamic2/Ssamic2WebPart.ts:392 | the regular-expression test as computed (split at the first `@`): any string it accepts holds an `@` and is at least five characters long |
| Validation.EmailCheckIsPattern | src/webparts/ssamic2/Ssamic2WebPart.ts:392 | the computed email test accepts exactly the strings the regular expression `^[^\s@]+@[^\s@]+\.[^\s@]+$` matches |
| Validation.EmailCheckSound | src/webparts/ssamic2/Ssamic2WebPart.ts:392 | every string the computed test accepts matches the regular expression |
| Validation.EmailCheckComplete | src/webparts/ssamic2/Ssamic2WebPart.ts:392 | every string the regular expression matches passes the computed test |
| Validation.EmailPatternMeaning | src/webparts/ssamic2/Ssamic2WebPart.ts:392 | the pattern matches exactly the strings with no whitespace, exactly one `@` with a non-empty local part, and a `.` strictly inside the part after the `@` |
| Validation.PatternIsDescribed | src/webparts/ssamic2/Ssamic2WebPart.ts:392 | a string the pattern matches has no whitespace, exactly one `@` with something before it, and a `.` strictly inside the part after it |
| Validation.DescribedIsPattern | src/webparts/ssamic2/Ssamic2WebPart.ts:392 | a string of that description is matched by the pattern |
| Validation.ValidateField | src/webparts/ssamic2/Ssamic2WebPart.ts:383-435 | only email, message, site and file can fail, and a failing field reports its own error (invalid email, required, select location, file too large) |
| Validation.EmailRule | src/webparts/ssamic2/Ssamic2WebPart.ts:389-396 | an empty email is accepted; a non-empty one is rejected with the invalid-email error exactly when it does not match the pattern |
| Validation.MessageRule | src/webparts/ssamic2/Ssamic2WebPart.ts:398-405 | the message is rejected with the required error exactly when it is empty or whitespace only |
| Validation.SiteRule | src/webparts/ssamic2/Ssamic2WebPart.ts:407-414 | the site is rejected with the select-location error exactly when it is the empty string; a whitespace-only site is accepted |
| Validation.FileRule | src/webparts/ssamic2/Ssamic2WebPart.ts:419-431 | no file is accepted; a file is rejected with the too-large error exactly when its size exceeds 10485760 bytes, so a file of exactly 10 MiB passes |
| Form.Flip | src/webparts/ssamic2/Ssamic2WebPart.ts:652 | the language toggle always changes the language |
| Form.DirectionOf | src/webparts/ssamic2/Ssamic2WebPart.ts:444-447 | the page is laid out right to left exactly in Arabic |
| Form.FlipMirrors | src/webparts/ssamic2/Ssamic2WebPart.ts:444-447 | toggling twice restores the language, and each toggle swaps the layout direction |
| Form.FieldText | src/webparts/ssamic2/Ssamic2WebPart.ts:775 | `formData[field]` reads as "" for any name outside the five text inputs ("management" in the submit pass) |
| Form.WithText | src/webparts/ssamic2/Ssamic2WebPart.ts:737-739 | writing a text entry never touches the attached file |
| Form.WithTextFrame | src/webparts/ssamic2/Ssamic2WebPart.ts:737-739 | writing one text entry sets that entry and leaves every other entry as it was |
| Form.SubmitValue | src/webparts/ssamic2/Ssamic2WebPart.ts:800-803 | the submit pass hands a file to the validator only under the name "file" |
| Form.FormErrors | src/webparts/ssamic2/Ssamic2WebPart.ts:797-811 | every error left by the submit pass belongs to a checked field and is that field's own error, and "management" never has one |
| Form.FormErrorsEmptyIffChecksPass | src/webparts/ssamic2/Ssamic2WebPart.ts:813-817 | the submit pass leaves no error exactly when each of email, message, site and file passes its check |
| Form.ChecksPassIffAcceptable | src/webparts/ssamic2/Ssamic2WebPart.ts:389-431 | the four checks pass exactly when the email is empty or matches the pattern, the message is not blank, a site is chosen and any file is at most 10 MiB |
| Form.EmailCheckOfForm | src/webparts/ssamic2/Ssamic2WebPart.ts:389-396 | the submit pass accepts the form's email exactly when it is empty or matches the pattern |
| Form.MessageCheckOfForm | src/webparts/ssamic2/Ssamic2WebPart.ts:398-405 | the submit pass accepts the form's message exactly when it is not blank |
| Form.SiteCheckOfForm | src/webparts/ssamic2/Ssamic2WebPart.ts:407-414 | the submit pass accepts the form's site exactly when it is not the empty string |
| Form.FileCheckOfForm | src/webparts/ssamic2/Ssamic2WebPart.ts:419-431 | the submit pass accepts the form's file slot exactly when it is empty or holds at most 10 MiB |
| Form.FormErrorsEmptyIffAcceptable | src/webparts/ssamic2/Ssamic2WebPart.ts:797-817 | the handler proceeds past validation exactly when the report is acceptable in the above sense |
| Form.SecondSizeCheckUnreachable | src/webparts/ssamic2/Ssamic2WebPart.ts:819-836 | once validation left no error, an attached file is within MAX_FILE_SIZE (10 * 1024 * 1024 = 10 * 1048576), so the second size check never fires |
| Submission.OrAnonymous | src/webparts/ssamic2/Ssamic2WebPart.ts:861-863 | the `trim` with the `'Anonymous'` fallback: an all-whitespace field is sent as "Anonymous", any other as its `trim` |
| Submission.OrAnonymousMeaning | src/webparts/ssamic2/Ssamic2WebPart.ts:861-863 | a blank field is sent as "Anonymous"; otherwise the value is sent as the slice of it left after dropping only surrounding whitespace, non-blank at both ends |
| Submission.Endpoint | src/webparts/ssamic2/Ssamic2WebPart.ts:871-874 | an unset or blank setting falls back to the default webhook; a set one is used without its surrounding whitespace; the endpoint is never empty |
| Submission.DataUrlPayload | src/webparts/ssamic2/Ssamic2WebPart.ts:996 | the extracted text never holds a comma, and is empty when the data URL has no comma |
| Submission.DataUrlPayloadOfDataUrl | src/webparts/ssamic2/Ssamic2WebPart.ts:993-997 | for a data URL whose header has no comma, the extracted text is the data up to its first comma, and the whole data when it has none, as base64 text never does |
| Submission.EncodeFile | src/webparts/ssamic2/Ssamic2WebPart.ts:849-856 | the file part keeps the attachment's name and carries the data-URL payload the reader produced, which holds no comma |
| Submission.BuildPayload | src/webparts/ssamic2/Ssamic2WebPart.ts:842-868 | no payload exactly when a file is attached but could not be read; otherwise name, email and department are normalised, site and message are sent unchanged, the file part is null exactly when no file is attached and otherwise carries the attachment's name and the payload of its data URL, and the language and timestamp are the ones given |
| Submission.MinimalReportIsAnonymous | src/webparts/ssamic2/Ssamic2WebPart.ts:858-868 | a report with only site "Riyadh HQ" and message "test" passes validation and is sent with name, email and department "Anonymous" |
| WebPart.Record | src/webparts/ssamic2/Ssamic2WebPart.ts:744-748 | after recording a check, the field's entry is present exactly when the check failed, holds that error, and no other entry changes |
| WebPart.RecordWellTagged | src/webparts/ssamic2/Ssamic2WebPart.ts:744-748 | recording a validator result keeps every stored error under a checked field, as that field's own error |
| WebPart.AfterChecksEntry | src/webparts/ssamic2/Ssamic2WebPart.ts:797-811 | after the loop has handled a prefix of the names, each handled name is present exactly when its check fails, with that error, and every other entry is as before the loop |
| WebPart.AfterChecksAll | src/webparts/ssamic2/Ssamic2WebPart.ts:797-811 | after the loop has handled every name, starting from errors of checked fields only, the errors are exactly those of the form |
| WebPart.WebPartState.constructor | src/webparts/ssamic2/Ssamic2WebPart.ts:40-49 | the initial state is English, menu closed, empty form, idle, no error, nothing touched |
| WebPart.WebPartState.ToggleLanguage | src/webparts/ssamic2/Ssamic2WebPart.ts:651-656 | the language flips and the menu, form data, busy flag, errors and touched set are unchanged |
| WebPart.WebPartState.ToggleMenu | src/webparts/ssamic2/Ssamic2WebPart.ts:657-662 | the menu flag flips and nothing else changes |
| WebPart.WebPartState.ScrollTo | src/webparts/ssamic2/Ssamic2WebPart.ts:663-678 | a non-empty target closes the menu; a missing or empty one changes nothing |
| WebPart.WebPartState.RemoveFile | src/webparts/ssamic2/Ssamic2WebPart.ts:706-712 | the file slot becomes empty, only the "file" error is deleted, and nothing else changes |
| WebPart.WebPartState.InputText | src/webparts/ssamic2/Ssamic2WebPart.ts:735-756 | the entry takes the typed value; a touched field is re-validated on the spot, while an untouched one leaves the errors unchanged; the touched set is unchanged |
| WebPart.WebPartState.InputFile | src/webparts/ssamic2/Ssamic2WebPart.ts:723-733 | the chosen file (or none) fills the file slot, "file" becomes touched, and the errors are unchanged |
| WebPart.WebPartState.Blur | src/webparts/ssamic2/Ssamic2WebPart.ts:759-786 | the field becomes touched and its stored value is validated into the errors; the form data is unchanged |
| WebPart.WebPartState.BlurFile | src/webparts/ssamic2/Ssamic2WebPart.ts:759-773 | "file" becomes touched and the picker's file, or else the stored one, is validated; the stored file is not replaced |
| WebPart.WebPartState.CheckForSubmit | src/webparts/ssamic2/Ssamic2WebPart.ts:798-810 | one pass of the loop body: the name becomes touched and its check's error is recorded or deleted; the form data is unchanged |
| WebPart.WebPartState.ValidateForSubmit | src/webparts/ssamic2/Ssamic2WebPart.ts:796-811 | the loop touches email, message, site, management and file, and leaves exactly the form's errors |
| WebPart.WebPartState.Send | src/webparts/ssamic2/Ssamic2WebPart.ts:838-904 | the request posted is the endpoint with the built payload (none if the file could not be read); after a send the form, touched set and errors are reset, after a failure they are kept; the handler ends idle |
| WebPart.WebPartState.Submit | src/webparts/ssamic2/Ssamic2WebPart.ts:791-905 | with any validation error nothing is sent, the busy flag is untouched and the errors are those of the form; otherwise the report goes through the sending stage above |

## Left out

- The HTML templating and full re-render (`_render`), and the DOM wiring: node cloning, `querySelector`, direct `textContent` updates and the delayed `scrollIntoView`. This is markup and browser plumbing. Only the `dir` choice is kept, in `FlipMirrors`.
- Toastify loading and the toasts; `console` logging. These are external library calls and output.
- `fetch`, `JSON.stringify` and `FileReader.readAsDataURL` with the base64 encoding. These are browser I/O, represented only by the `posted` and `read` parameters of `Submit`.
- `new Date().toISOString()`. The timestamp is an opaque parameter.
- The localized strings, site and department tables. Each error message is abstracted to the error it reports.
- The body of the second file-size check, including its `toFixed(2)` message and toast. `SecondSizeCheckUnreachable` proves the branch can never be taken, so the model states it as unreachable.
- Host integration: `onInit`, the environment message, `onThemeChanged`, `dataVersion` and the property pane. These are thin wrappers over host APIs.
- Interleaving at the two `await`s of the submit handler. While a report is in flight, other handlers may run in the browser. The model runs `Submit` as one step.
- Strings are sequences of Unicode scalar values, not UTF-16 code units. Every whitespace character lies in the BMP, so the validator's rules are unaffected.
- WebPart.WebPartState.InputText: requires one of the five text inputs' names. The markup has no other text input. With an unknown name, the source would add a new property to `formData`.
- WebPart.WebPartState.Blur: requires one of the five text inputs' names, for the same reason.
- Validation.ValidateField: requires that a present file be passed only under the name "file". Every call site does so. What JavaScript would make of a `File` given to the text rules is not modelled.
- Submission.Endpoint: does not state that the hard-coded default URL has no surrounding whitespace. That holds of the literal, but the verifier does not index into a 286-character literal cheaply.
