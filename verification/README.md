# Consignment Processor upload page — a Dafny model

This project models the client-side core of the Consignment Processor web
page: the user picks or drops a spreadsheet, may type a notification e-mail,
submits, watches a progress bar, and sees per-consignment results with
summary counts. It covers the page component (`src/app/page.tsx`) and its
drop zone (`src/app/components/FileUploadArea.tsx`).

Modules:

- `Uploads` — the browser file, the accepted MIME types (`.xls`, `.xlsx`,
  `.csv`), the multipart form sent (with an `email` field only for a
  non-empty e-mail), the service's answer or rejection, the failure message
  precedence, and the notifications.
- `EmailPattern` — the pattern `^\S+@\S+\.\S+$`, its language, a
  characterisation on positions, and a decision function proved equal to it.
- `Progress` — the rounded percentage of an upload progress event, its
  bounds and monotonicity, and the status texts.
- `Decimal` — the decimal text of a number shown in `Uploading... {percent}%`.
- `Results` — result rows and the derived `{total, success, failed}` counts.
- `FileUploadArea` — the drop zone as a class holding `isDragging`, and the
  priority rule for its look.
- `HomePage` — the page as a class whose fields are the page's state, with
  the submit sequence split into its phases: checks and start, the progress
  callback, the end of the request (success or failure, then the processing
  flag cleared), and the delayed reset.
- `Scenarios` — worked cases.

The request is not performed. Its progress events and the way it ends
(`Answered(message?, results?)` or `Rejected(serverMessage?, errorMessage?)`)
are arguments. The page records every form it sends in `sent` and every
notification in `toasts`. A ghost log `shownPercents` records every value
the progress bar was set to.

JavaScript truthiness is kept where the code relies on it. An empty
`message` in a response counts as absent, so the fallback text is used. An
empty e-mail skips the check and is not sent. A present but empty `results`
array still replaces the list and resets the counts to zero.

Four behaviours of the code are easy to miss:

- The delayed reset calls `updateProgress(0)`. This also puts the status text
  back to `Processing...`; it does not leave the text unchanged
  (`HomePage.Home.Settle`).
- The progress shown during an upload is not non-decreasing overall. The bar
  starts at 10, and a first progress event may show less, for example 1
  (`Progress.FirstEventMayShowLessThanStart`). From the first event on, when
  every event reports a known total it does not exceed, the percentages of
  one request never go down and end at 100 on success
  (`Progress.SuccessfulRunRises`).
- When the transport reports no total, the page divides by 1 and shows 100
  times the bytes sent: 5 bytes show "Uploading... 500%", and success then
  drops the bar to 100 (`Progress.UnknownTotalShowsOverHundred`).
- The file picker's change handler does not check the processing flag. Only
  the click that opens the picker is gated.

The model's steps are separate methods, so nothing forces their order. A
second submit is possible as soon as `isProcessing` is false again, before
`Settle` runs. A later `Settle` then resets the bar of the new upload. This
is the re-entrancy gap of the 3-second reset delay.

## Model

| member | source | states |
|---|---|---|
| `Uploads.BuildForm` | src/lib/api.ts:24-26 | the form carries the file, and an `email` field exactly when the e-mail text is non-empty, holding that text |
| `Uploads.OrElse` | src/app/page.tsx:78 | JavaScript's `or` on an optional string: the value when present and non-empty, otherwise the fallback |
| `Uploads.IsValidFileType` | src/app/page.tsx:12-16 | a MIME type is accepted exactly when it is the `.xls`, `.xlsx` or `.csv` type |
| `Uploads.UploadedToast` | src/app/page.tsx:78 | a success notification with the server's message, or "File uploaded successfully." when it is missing or empty |
| `Uploads.UploadErrorToast` | src/app/page.tsx:92 | an error notification reading "Upload error: " followed by the failure message |
| `Uploads.FailureMessage` | src/app/page.tsx:91 | the reported message is the server's message, else the transport error's message, else "Upload failed."; it is never empty |
| `EmailPattern.EmailRegexCharacterisation` | src/app/page.tsx:63 | a string matches `^\S+@\S+\.\S+$` iff it has no whitespace, an `@` at some index i ≥ 1 and a `.` at some index j with i+2 ≤ j ≤ length−2 |
| `EmailPattern.RegexImpliesShape` | src/app/page.tsx:63 | a match of the pattern has no whitespace and `@`/`.` at positions so placed |
| `EmailPattern.ShapeImpliesRegex` | src/app/page.tsx:63 | such positions give a split into `\S+ @ \S+ . \S+` |
| `EmailPattern.FirstFrom` | src/app/page.tsx:63 | returns the first index at or after `from` holding the character, or none if there is none |
| `EmailPattern.LastBefore` | src/app/page.tsx:63 | returns the last index before `upto` holding the character, or none if there is none |
| `EmailPattern.IsValidEmail` | src/app/page.tsx:63 | true exactly when the string is in the language of the pattern |
| `Progress.UploadingStatus` | src/app/page.tsx:74 | the status text is `Uploading... `, then the decimal text of the percentage, then `%` |
| `Progress.UnknownTotalShowsOverHundred` | src/app/page.tsx:73 | with no total, 5 bytes show 500, and the run 500 then 100 goes down |
| `Progress.Divisor` | src/app/page.tsx:73 | a missing or zero total divides by 1: the divisor is at least 1, and equal to the total when that is known and non-zero |
| `Progress.UploadPercent` | src/app/page.tsx:73 | the result is `Math.round(loaded*100/t)` for non-negative operands: the integer nearest to 100·loaded/t, with halves rounded up |
| `Progress.PercentWithinBounds` | src/app/page.tsx:72-75 | with a known total and loaded ≤ total the percentage is in 0..100, and it is 100 when all of a non-empty body is sent |
| `Progress.PercentMonotone` | src/app/page.tsx:72-75 | more bytes of the same total never give a smaller percentage |
| `Progress.Percents` | src/app/page.tsx:72-75 | one percentage per event, in delivery order |
| `Progress.PercentsNonDecreasing` | src/app/page.tsx:72-75 | the percentages of one request's events never go down |
| `Progress.SuccessfulRunRises` | src/app/page.tsx:72-77 | the events' percentages followed by the final 100 never go down and stay ≤ 100 |
| `Progress.FirstEventMayShowLessThanStart` | src/app/page.tsx:69-74 | an event of 1 byte out of 100 shows 1, which is below the starting 10 |
| `Progress.UploadingStatusRoundTrip` | src/app/page.tsx:74 | the percentage can be read back from `Uploading... {percent}%`, and this text differs from the page's other status texts |
| `Decimal.NatToString` | src/app/page.tsx:74 | the rendered number is non-empty, all digits, and has no leading zero |
| `Decimal.ParseNatToString` | src/app/page.tsx:74 | parsing the rendered digits gives back the number |
| `Decimal.NatToStringInjective` | src/app/page.tsx:74 | different percentages render to different texts |
| `Results.SuccessCount` | src/app/page.tsx:82 | the number of rows with status "success" is at most the row count; it equals the row count iff every row succeeded, and is 0 iff none did |
| `Results.CountsPartition` | src/app/page.tsx:82-86 | successful rows plus non-successful rows make up all rows |
| `Results.DeriveStats` | src/app/page.tsx:80-88 | total is the row count; success + failed = total; failed is the number of rows whose status is not "success", and is 0 iff all rows succeeded |
| `Results.PanelsAgree` | src/app/page.tsx:188-212 | with derived counts, the stat cards (`total > 0`) show exactly when the result list (`length > 0`) does; only an empty list derives {0, 0, 0} |
| `FileUploadArea.LookOf` | src/app/components/FileUploadArea.tsx:56-62 | the drop zone looks "dragging" iff a drag is in progress; it looks "selected" iff no drag is in progress and a file is selected; otherwise it looks idle |
| `FileUploadArea.UploadAreaClass` | src/app/components/FileUploadArea.tsx:53-65 | the class list is the base class followed by the modifier of the look chosen by priority |
| `FileUploadArea.ExactlyOneModifier` | src/app/components/FileUploadArea.tsx:53-65 | the class list starts with the base class and ends with exactly one of the three modifiers: the one for the current look |
| `FileUploadArea.FirstFile` | src/app/components/FileUploadArea.tsx:26-27 | a file exists iff the list is present and non-empty, and it is the first file of the list |
| `FileUploadArea.FileUploadArea.constructor` | src/app/components/FileUploadArea.tsx:16 | a new drop zone is not dragging |
| `FileUploadArea.FileUploadArea.HandleClick` | src/app/components/FileUploadArea.tsx:19-23 | the picker opens iff the page is not processing and the file input is mounted |
| `FileUploadArea.FileUploadArea.HandleFileChange` | src/app/components/FileUploadArea.tsx:25-29 | forwards exactly the first chosen file when there is one, and nothing otherwise |
| `FileUploadArea.FileUploadArea.HandleDragEnter` | src/app/components/FileUploadArea.tsx:36-38 | starts the highlight unless processing; while processing the flag is unchanged |
| `FileUploadArea.FileUploadArea.HandleDragLeave` | src/app/components/FileUploadArea.tsx:40-42 | always ends the highlight |
| `FileUploadArea.FileUploadArea.HandleDrop` | src/app/components/FileUploadArea.tsx:44-51 | always ends the highlight; forwards exactly the first dropped file iff the list is non-empty and the page is not processing |
| `FileUploadArea.FileUploadArea.HandleClearButtonClick` | src/app/components/FileUploadArea.tsx:82-93 | the button, present only with a selection, asks for a clear and does not let the click open the picker |
| `HomePage.Validate` | src/app/page.tsx:57-66 | a submit goes ahead iff a file is selected and the e-mail is empty or matches the pattern; with no file it is blocked as NoFileSelected; with a file and a non-empty e-mail that fails the pattern it is blocked as InvalidEmailFormat; the form sent is exactly the one built from that file and e-mail text |
| `HomePage.BlockToast` | src/app/page.tsx:58-65 | a blocked submit raises an error notification: the no-file text exactly for NoFileSelected, the e-mail text exactly for InvalidEmailFormat |
| `HomePage.SelectionAfter` | src/app/page.tsx:39-45 | a file becomes the selection iff its type is accepted (or it already was the selection); any other change of selection is to that file |
| `HomePage.Home.constructor` | src/app/page.tsx:21-31 | starts with no e-mail, no file, not processing, progress 0 with "Processing...", no results, counts {0, 0, 0}, which agree with the empty list |
| `HomePage.Home.ShowsStatsCards` | src/app/page.tsx:188 | on a consistent page the stat cards are shown exactly when the result list is |
| `HomePage.Home.SetEmail` | src/app/page.tsx:134 | the e-mail text becomes what was typed |
| `HomePage.Home.HandleFileSelect` | src/app/page.tsx:39-45 | an accepted type becomes the selection with no notification; any other type leaves the selection as it was and adds the invalid-type error notification |
| `HomePage.Home.HandleFileClear` | src/app/page.tsx:47-50 | the selection becomes none whatever it was, and a success notification is added |
| `HomePage.Home.UpdateProgress` | src/app/page.tsx:52-55 | sets the percentage and the status text, and logs the percentage |
| `HomePage.Home.OnUploadProgress` | src/app/page.tsx:72-75 | the bar shows the event's rounded percentage with "Uploading... {percent}%" |
| `HomePage.Home.DeliverProgress` | src/app/page.tsx:72-75 | after the events of one request the bar shows the last event's percentage and text (unchanged if there were none), and the log gains each event's percentage in order |
| `HomePage.Home.StartProcessing` | src/app/page.tsx:57-69 | only callable while the submit button is enabled (line 147); a blocked submit adds its error notification and changes nothing else, and sends nothing; a started one sets processing, shows 10 with "Uploading file..." and sends exactly the validated form |
| `HomePage.Home.FinishProcessing` | src/app/page.tsx:77-94 | an answer shows 100 with "File uploaded successfully!", notifies the server's message or the fallback, and replaces the list only when the answer has one; a rejection notifies "Upload error: …" and leaves results and counts unchanged; both clear the processing flag and keep the counts derived from the list |
| `HomePage.Home.Settle` | src/app/page.tsx:95-97 | the delayed reset sets the bar to 0 and the status text back to "Processing..." |
| `HomePage.Home.ProcessFile` | src/app/page.tsx:57-99 | the whole submit: the outcome is the validation's; a blocked submit sends nothing and changes only the notifications; a started one sends exactly one form and ends not processing; the bar's log is 10, then each event's percentage, then 100 on success; results and counts change only on an answer that carries results |
| `HomePage.Home.ClickUploadArea` | src/app/components/FileUploadArea.tsx:19-23 | the page's drop zone opens the picker iff submitting is enabled and the input is mounted |
| `HomePage.Home.PickFiles` | src/app/components/FileUploadArea.tsx:25-29 | the first picked file, if any, is offered to the page's file selection; no file changes nothing |
| `HomePage.Home.DragEnterArea` | src/app/components/FileUploadArea.tsx:36-38 | the page's drop zone highlights unless the page is processing |
| `HomePage.Home.DragLeaveArea` | src/app/components/FileUploadArea.tsx:40-42 | the page's drop zone stops highlighting |
| `HomePage.Home.DropOnArea` | src/app/components/FileUploadArea.tsx:44-51 | a drop ends the highlight; while processing, or with no files, the selection and notifications are unchanged; otherwise the first file is offered to the page's file selection |
| `HomePage.Home.ClickClearButton` | src/app/components/FileUploadArea.tsx:82-93 | with a file selected, the click clears the selection, notifies, and does not open the picker |
| `Scenarios.CsvAcceptedTextRejected` | src/app/page.tsx:12-16 | `text/csv` is accepted; `text/plain` is rejected and leaves an empty selection empty |
| `Scenarios.BadEmailBlocked` | src/app/page.tsx:63-66 | "not-an-email" blocks the submit as an invalid e-mail |
| `Scenarios.GoodEmailSent` | src/app/page.tsx:63-66 | "a@b.com" passes and is sent along with the file |
| `Scenarios.EmptyEmailNotSent` | src/lib/api.ts:24-26 | an empty e-mail is neither checked nor sent |
| `Scenarios.TwoRowStats` | src/app/page.tsx:82-87 | one success and one error row give the counts 2 / 1 / 1 |
| `Scenarios.FailureMessageExamples` | src/app/page.tsx:91 | no messages give "Upload failed."; an empty server message gives way to the transport message; a server message wins |

## Left out

- The HTTP request (`src/lib/api.ts`, axios, `FormData`, the base URL) is not modelled. Only the form's fields are modelled (`Uploads.BuildForm`). The request's progress events and its ending are arguments of `HomePage.Home.ProcessFile`. `uploadConsignments` is not used by the page and is not part of this model.
- Notifications (`src/utils/toast.ts`, Toastify) are an appended log of (message, kind). Their duration, placement and removal are display-only.
- The 3000 ms timer is not modelled as time. The delayed reset is the separate step `HomePage.Home.Settle`, which may run at any point after the request ends, including after a later submit has started.
- The await inside `processFile` is not modelled as a suspension inside one method. Instead, `StartProcessing`, `OnUploadProgress` and `FinishProcessing` are separate steps, so other handlers can run between them. `ProcessFile` runs them back to back.
- `Progress.UploadPercent` computes `Math.round` of a floating-point division as the exact integer rounding of the quotient. Floating-point error on very large byte counts is not modelled.
- `EmailPattern.IsWhitespace`: the JavaScript pattern runs without the `u` flag, so it works on UTF-16 code units, while the model works on Unicode characters. Every non-BMP character is non-whitespace in both readings, so whether a string matches is unchanged.
- The e-mail input's own browser validation (`type="email"`) is not modelled. The page does not rely on it for blocking a submit.
- HomePage.Home.SetEmail: stores any text. The browser sanitises the value of an `type="email"` input before `onChange` reads it (src/app/page.tsx:128-135). Newlines are removed and leading and trailing ASCII whitespace is stripped. So the model admits e-mail texts, such as `"  "`, that the page can never hold.
- Uploads.UploadResponse: an answer is assumed well-formed, with `message` a string and `results` an array of records. The code also reaches its failure branch (src/app/page.tsx:90-92) when a 2xx body throws inside the success branch, and the model does not capture those paths:
  - A `null` body throws at `data.message` (line 78). By then the bar already shows 100 with "File uploaded successfully!", and an "Upload error: …" notification follows.
  - A present `results` that is not an array is stored (line 81) before `.filter` throws (line 82). The list then changes while the counts do not, so the counts no longer describe the list.
- File contents are not modelled. A file is its name, size and MIME type.
- JSX rendering is not modelled, apart from these guards: the disabled submit button (line 147), the stat cards (line 188), the results list (line 212), the drop zone's class and the clear button. `HowItWorksCard.tsx`, `StatCard.tsx`, `ResultItem.tsx` (including its clipboard copy) and `layout.tsx` are not part of this model.
- Setting `document.title` (src/app/page.tsx:34-36) and `preventDefaults` on drag-over are not modelled. Neither touches the page's state.
