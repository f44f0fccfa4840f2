# Mugshot effect page: a Dafny model of its client logic

The page (`script.js`) lets a visitor upload a photo, send it to an image-effect
service, poll the service until the job is done, and download the result. This
project models the sequential core of that script and proves what it does. Every
network response and every DOM probe the script reads is an input value.

- `wrappers.dfy` (`Wrappers`): `Option`, `Result`, and JavaScript truthiness of an optional string.
- `text.dfy` (`Text`): `split`/`join` on a one-character separator, `includes`, and the decimal rendering of a counter.
- `nanoid.dfy` (`NanoId`): `generateNanoId`. The random draws are a given sequence of indices into the 62-character alphabet.
- `web.dfy` (`Web`): HTTP replies (rejected, or answered with `ok`, status text and body) and the outward effects the page causes (requests, saves, opened tabs, alerts).
- `upload.dfy` (`Upload`): the storage file name, the public URL and the two-step upload of `uploadFile`.
- `jobs.dfy` (`Jobs`): the submit body and the submission, result-URL extraction, and the specification of `pollJobStatus` as a function of the scripted responses.
- `status_button.dfy` (`StatusButton`): `updateStatus` as a transition of the generate button's `(disabled, text)` pair.
- `download.dfy` (`Download`): the download button's three-way fallback chain.
- `session.dfy` (`Session`): the class `Page`, holding the session slot `currentUploadedUrl`, the generate and download buttons, and two ghost logs. `Statuses` records every `updateStatus` text and `Effects` every request, alert, save and opened tab. The handlers for file selection, generate, reset and download are methods on it. Each is proved against the functions above.

The code, not any description of it, fixes the state after a failed generate.
`updateStatus('ERROR')` leaves `disabled` as the earlier busy texts set it, so
the generate button stays disabled under `ERROR` (Session.GenerateFinalButton).
A reset keeps it disabled, since it sets `disabled = true` (script.js:397). Only
a new upload enables it again, through `showPreview` and `READY`.

## Model

| member | source | states |
|---|---|---|
| NanoId.GenerateNanoId | script.js:37-44 | the loop appends one alphabet character per draw: the token spells the first `length` draws, has exactly `length` characters, and each character is a letter or a digit |
| NanoId.Spell | script.js:40-42 | the token has one character per draw, the i-th being the alphabet character at index `draws[i]` |
| NanoId.AlphabetAt | script.js:38 | the alphabet has 62 characters: upper case at 0-25, lower case at 26-51, digits at 52-61 |
| NanoId.AlphabetIsAlphanumeric | script.js:38 | a character is in the alphabet if and only if it is an ASCII letter or digit |
| NanoId.InAlphabetIsAlphanumeric | script.js:38 | each character of the alphabet is an ASCII letter or digit |
| NanoId.AlphanumericInAlphabet | script.js:38 | each ASCII letter and digit occurs in the alphabet |
| NanoId.AlphabetDistinct | script.js:38 | no character occurs twice in the alphabet |
| NanoId.SpellIsAlphanumeric | script.js:40-42 | every character of a generated token is a letter or a digit |
| NanoId.SpellInjective | script.js:40-42 | different draw sequences give different tokens |
| Text.Split | script.js:48 | `split('.')` yields at least one piece and no piece contains the separator |
| Text.JoinSplit | script.js:48 | joining the pieces of a split gives back the original name |
| Text.SplitJoin | script.js:48 | splitting a join of separator-free pieces gives back the pieces |
| Text.SplitAppendPlain | script.js:48 | appending text without a separator only lengthens the last piece |
| Text.SplitSnocPlain | script.js:48 | appending one non-separator character lengthens only the last piece by that character |
| Text.ExtendLastTwice | script.js:48 | lengthening the last piece by `t` and then by `c` lengthens it by `t + [c]` |
| Text.SplitSnocSep | script.js:48 | a trailing separator adds one empty piece |
| Text.SplitJoinSnoc | script.js:48 | one more separator-free piece joined on is split off again as the last piece |
| Text.DecimalString | script.js:164 | the rendering of a counter is a non-empty string of digits with no leading zero |
| Text.DecimalRoundTrip | script.js:164 | reading the rendering back gives the counter |
| Text.DecimalInjective | script.js:164 | distinct counters are rendered differently |
| Text.Contains | script.js:202 | `includes` holds only for a pattern no longer than the text |
| Text.ContainsAt | script.js:202 | a pattern occurring at some position is found by `includes` |
| Text.ContainsFound | script.js:202 | conversely, when `includes` holds the pattern occurs at some position |
| Upload.FileExtension | script.js:48 | the extension is non-empty and dot-free; it is `jpg` or a suffix of the file name |
| Upload.ExtensionOfDottedName | script.js:48 | a name ending in `.ext` with `ext` non-empty has extension `ext` |
| Upload.ExtensionOfUndottedName | script.js:48 | a non-empty name without a dot is its own extension |
| Upload.ExtensionDefaults | script.js:48 | an empty name or one ending in a dot gets `jpg` |
| Upload.TokenHasNoDot | script.js:49 | a generated token contains no dot |
| Upload.StorageFileName | script.js:51 | the storage name is the token, a dot, then a non-empty extension |
| Upload.PublicUrl | script.js:80 | the public URL is the content base followed by exactly the storage name |
| Upload.StorageNameSplits | script.js:49-80 | the storage name `id + '.' + ext` splits back into exactly the token and the extension; the public URL is the content base followed by the storage name |
| Upload.UploadFile | script.js:47-83 | the upload succeeds exactly when both the signed-URL request and the PUT succeed; it then returns the public URL of the storage name; it sends the signed-URL request first and the PUT only after a successful first step |
| Upload.UploadErrors | script.js:59-77 | a non-ok step fails with `Failed to get signed URL: ` or `Failed to upload file: ` followed by the response's status text |
| Upload.UploadUrlIndependentOfResponses | script.js:80-82 | the returned URL does not depend on the signed URL or on the PUT response |
| Jobs.SubmitBody | script.js:99-107 | the request body carries the given image URL and the fixed user id |
| Jobs.SubmitBodyConstantBesidesImage | script.js:99-107 | two bodies differ only in `imageUrl`, and are equal exactly when their image URLs are |
| Jobs.SubmitImageGenJob | script.js:86-122 | exactly one POST carrying the body; success exactly when the reply succeeded, returning the reply's body; a non-ok reply fails with `Failed to submit job: ` and the status text |
| Jobs.ResultItem | script.js:149 | the candidate item is `result` itself for a single object and `result[0]` for a non-empty array; there is none exactly when `result` is missing or an empty array |
| Jobs.ResultUrl | script.js:149-150 | a URL is found exactly when the candidate item has a truthy `mediaUrl`, `video` or `image`; it is the first truthy one in that order, and never empty |
| Jobs.ResultUrlOfList | script.js:149 | an array stands for its first element |
| Jobs.FailureMessage | script.js:160 | the job-failure message is the response's `error` when that is truthy and `Job processing failed` otherwise; it is never empty |
| Jobs.TickEnd | script.js:140-161 | a single response never times the run out, and it resolves the job only when it was answered with ok and `completed`, carrying a truthy result URL |
| Jobs.TickEndUndecided | script.js:140-161 | a response leaves polling undecided exactly when it was answered with ok, is neither `failed` nor `error`, and is not `completed` with a result URL |
| Jobs.UndecidedSnoc | script.js:159-168 | one more undecided response extends the undecided prefix of the responses by one |
| Jobs.PollStepUndecided | script.js:159-168 | an undecided response shows its progress text and polling continues |
| Jobs.PollSkipsUndecided | script.js:129-169 | after p undecided responses the run continues from p, having shown the first p progress texts |
| Jobs.PollEndsAtFirstDecision | script.js:140-161 | the first deciding response ends the run after exactly one request per response up to it, with the progress texts of the ticks before it |
| Jobs.PollOutcomeAt | script.js:140-161 | at the first deciding response the run fails with the rejection, with `Failed to check status: ` and the status text for a non-ok reply, or with the response's `error` (else `Job processing failed`) for `failed` or `error`; a `completed` reply succeeds with its result URL added |
| Jobs.PollTimesOut | script.js:129-171 | with no deciding response, the run makes exactly 60 requests, shows the 60 progress texts and ends in the timeout |
| Jobs.PollStopsAt | script.js:129-171 | after n undecided responses the run ends at the deciding response n with n + 1 requests, or, when n is 60, in the timeout with 60 requests; either way it shows the n progress texts |
| Jobs.TimeoutMessageText | script.js:171 | the timeout message reads `Job timed out after 60 polls` |
| Jobs.PollBounded | script.js:129-171 | every run makes at most 60 requests and shows one progress text per request except a deciding one; only a run of 60 requests times out |
| Jobs.PollProgressNumbered | script.js:164 | the k-th progress text of a run is `PROCESSING... (k)`, counting from 1 |
| Jobs.PollSuccessValue | script.js:147-156 | a successful run returns some `completed` response with a result URL, with `resultUrl` set to that URL and every other field unchanged |
| Jobs.PollFrom | script.js:127-169 | the loop from `polls` undecided responses on; a run it resolves carries a truthy result URL |
| Jobs.Poll | script.js:125-172 | a whole run makes between 1 and 60 status requests and shows one progress text per request except a deciding one; only a run of 60 requests times out |
| StatusButton.AfterStatus | script.js:198-212 | after `updateStatus(text)` the button is disabled exactly when the text is busy, or it was disabled and the text is neither `READY` nor `COMPLETE` |
| StatusButton.AfterStatusesAppend | script.js:198-212 | a series of status updates acts as its first part followed by its second |
| StatusButton.BusyTextDisables | script.js:202-204 | a text containing `PROCESSING`, `UPLOADING` or `SUBMITTING` disables the button and is shown verbatim |
| StatusButton.ReadyEnables | script.js:205-207 | `READY` enables the button under `APPLY EFFECT` |
| StatusButton.CompleteEnables | script.js:205-207 | `COMPLETE` enables the button under `GENERATE AGAIN` |
| StatusButton.QueuedKeepsDisabled | script.js:208-210 | `QUEUED...` changes only the caption |
| StatusButton.QueuedNotBusy | script.js:202 | `QUEUED...` is not a busy text |
| StatusButton.ErrorKeepsDisabled | script.js:208-210 | `ERROR` changes only the caption |
| StatusButton.UploadingAndSubmittingAreBusy | script.js:202 | `UPLOADING...` and `SUBMITTING...` are busy texts |
| StatusButton.NotBusyWithout | script.js:202 | a text that lacks one character of each busy marker is not busy |
| StatusButton.AfterStatusIdempotent | script.js:198-212 | showing the same status twice changes nothing the second time |
| StatusButton.StaysDisabledUntilIdle | script.js:201-210 | once a busy text has disabled the button, it stays disabled until `READY` or `COMPLETE` |
| StatusButton.LastStatusDecidesLabel | script.js:204-209 | the caption shown is the one set by the last status |
| Download.ChooseStrategy | script.js:429-476 | the direct save is used exactly when the fetch succeeded; the canvas exactly when the fetch failed and the image is loaded with a width and drawing does not throw; otherwise a new tab |
| Download.DownloadEffects | script.js:430-476 | a download fetches the URL first and then does exactly one more thing |
| Download.DirectSuccessSkipsFallbacks | script.js:429-447 | when the fetch succeeds, the file is saved as `mugshot_result_<id>.jpg` and neither the canvas file nor a new tab is used |
| Download.NoImageOpensTabOnce | script.js:450-476 | when the fetch fails and no loaded image with a width exists, the URL is opened in a new tab, once |
| Download.CanvasFailureOpensTab | script.js:452-476 | with a usable image, a throwing canvas ends in a new tab, and a working one saves `mugshot_result_fallback.png` |
| Download.DirectFileNameShape | script.js:444 | the direct file name is the fixed prefix, the 6-character token and `.jpg` |
| Download.DirectFileName | script.js:444 | the direct file name is 19 characters longer than the token, holds the token between prefix and suffix, and differs from the fallback name |
| Download.CanvasUsable | script.js:456 | the canvas is used only for an existing image with a positive natural width |
| Session.ProgressIsBusy | script.js:164 | every progress text is busy and neither `READY` nor `COMPLETE` |
| Session.GenerateTextsNotIdle | script.js:297-321 | no status of a generate click but the last is `READY` or `COMPLETE` |
| Session.GenerateTextsBeforeLast | script.js:295-321 | every status of a generate click but the last is `SUBMITTING...`, `QUEUED...`, `ERROR` or a progress text of the run |
| Session.GenerateTextsLast | script.js:313-321 | the last status of a generate click is `COMPLETE` when the job resolved and `ERROR` otherwise |
| Session.GenerateKeepsButtonDisabled | script.js:297-321 | from `SUBMITTING...` until the last status of a generate click, the button stays disabled |
| Session.GenerateFinalButton | script.js:307-321 | a generate click ends with the button enabled under `GENERATE AGAIN` when the job resolved, and disabled under `ERROR` after any failure |
| Session.FinalStatus | script.js:198-212 | after a disabled stretch, a final `COMPLETE` enables the button under `GENERATE AGAIN` and a final `ERROR` leaves it disabled under `ERROR` |
| Session.Page.constructor | script.js:6 | the page starts with an empty session slot and empty logs |
| Session.Page.UpdateStatus | script.js:198-212 | only the generate button changes, by one status transition; the status is logged |
| Session.Page.ShowError | script.js:214-217 | an `Error: ` alert, then the `ERROR` status |
| Session.Page.ShowPreview | script.js:231 | the generate button, if present, is enabled; nothing else changes |
| Session.Page.ShowResultMedia | script.js:247-251 | the download button, if present, gets the URL and loses its `disabled` class |
| Session.Page.ClickReset | script.js:378-413 | the slot is cleared, the generate button is disabled under `APPLY EFFECT`, and the download URL is withdrawn; without a reset button nothing happens |
| Session.Page.HandleFileSelect | script.js:259-286 | without a file nothing happens; the slot is set to the public URL only when the upload succeeded, and the button then reads `APPLY EFFECT`, enabled; on failure the error is reported and, when a reset button exists, the slot is cleared |
| Session.Page.UploadSucceeded | script.js:272-277 | the slot holds the uploaded URL and the button reads `APPLY EFFECT`, enabled |
| Session.Page.UploadSelected | script.js:262-286 | the preview, `UPLOADING...`, then the upload under a fresh 21-character id, ending as `handleFileSelect` promises on success and on failure |
| Session.Page.UploadSettled | script.js:271-285 | the upload's requests are logged, then the success path or the `catch` block ends in the state `handleFileSelect` promises |
| Session.Page.UploadFailed | script.js:279-285 | `ERROR` twice and one alert; then the reset, if a reset button exists |
| Session.Page.PollJobStatus | script.js:125-172 | the loop's result, requests, progress texts and button state are those of the polling specification; a success carries a truthy result URL |
| Session.Page.AwaitDecision | script.js:127-169 | the loop stops at the first deciding response, or after 60 undecided ones, having made one request per response read and shown one progress text per undecided one |
| Session.Page.PollOnce | script.js:130-168 | one pass of the loop makes one status request and returns the response's decision; an undecided response adds its progress text |
| Session.Page.ShowProgress | script.js:164 | an undecided tick adds its progress text to the statuses and the button |
| Session.Page.GenerateFailed | script.js:318-322 | the `catch` of generate: `ERROR` twice and one alert |
| Session.Page.ShowOutcome | script.js:313-321 | a resolved job puts its URL on the download button and shows `COMPLETE`; a failed one is reported |
| Session.Page.AwaitJob | script.js:307-321 | `QUEUED...`, the polling, then `COMPLETE` with the result shown, or the failure reported |
| Session.AwaitSteps | script.js:307-321 | `QUEUED...`, the polling texts and the outcome's texts and alert compose into the statuses, button state and effects of awaiting a job |
| Session.Page.SubmitAndAwait | script.js:295-322 | submit, then await the job; a failed submission is reported and no status request is made |
| Session.Page.HandleGenerate | script.js:289-323 | with an empty slot, only an alert and no request; otherwise the submitted body carries the slot's URL and the whole generate flow follows; the slot never changes |
| Session.Page.ClickDownload | script.js:421-480 | without a button URL nothing happens; otherwise the effects are those of the chosen strategy, and the button ends with its caption restored and enabled |

## Left out

- Network I/O: `fetch`, headers, `encodeURIComponent` and JSON parsing are not modelled. Each response is an input: rejected with a message, or answered with `ok`, status text and a parsed body. A failing `response.text()`, `json()` or `blob()` is folded into the rejected case.
- JSON bodies are typed: `jobId` and `status` are strings, and result fields are absent or strings. Missing `jobId`, non-string values and `null` array elements are not modelled.
- Timing: the two-second wait between polls and the delayed `revokeObjectURL` are steps with no duration.
- Concurrency: `async` interleavings are not modelled. In particular, a reset or a second upload while a job is being polled is out of scope; the code does not guard against it.
- `Math.random()`: the draws are given as a sequence of indices in [0, 62), so the model says nothing about their distribution.
- DOM presentation is not modelled: previews, `showLoading`/`hideLoading`, image sources and visibility, `console` output, object URLs, and canvas drawing itself. Only the states the core logic reads or writes are modelled: the generate button, the download button and the session slot.
- Session.Page.ClickDownload: the transient `Downloading...` caption is set and restored inside the method, so the contract states only the final caption. The single-threaded model has no moment in which the transient caption could be observed.
- Statuses and effects sit in two separate logs, so their relative order (e.g. the alert after the first `ERROR`) is not recorded.
- The mobile menu, drag-and-drop highlighting, the FAQ accordion, modals, scroll animations and the footer year are pure presentation and are not modelled.
