/** The page's mutable state and its handlers: file selection (upload), generate
    (submit, poll, show), reset, and the download button (script.js:6, 198-217,
    259-323, 378-413, 421-481). */
module Session {
  import opened Wrappers
  import opened Text
  import opened Web
  import opened Jobs
  import opened StatusButton
  import NanoId
  import Upload
  import Download

  /** The download button: `dataset.url`, its text, and its `disabled` class. */
  datatype DownloadButton = DownloadButton(url: Option<string>, caption: string, disabled: bool)

  /** What the reset handler does to the download button. */
  function ResetDownload(d: Option<DownloadButton>): Option<DownloadButton>
  {
    match d
    case None => None
    case Some(b) => Some(b.(url := None, disabled := true))
  }

  /** What `showResultMedia` does to the download button. */
  function WithResult(d: Option<DownloadButton>, url: Option<string>): Option<DownloadButton>
  {
    match d
    case None => None
    case Some(b) => Some(b.(url := url, disabled := false))
  }

  /** Statuses shown after the job was created: queued, one per undecided poll,
      then complete or the error status twice. */
  function AwaitTexts(run: PollRun): seq<string>
  {
    ["QUEUED..."] + run.progress + (if run.end.Resolved? then ["COMPLETE"] else ["ERROR", "ERROR"])
  }

  /** Effects after the job was created: the status requests, then an alert unless
      the job resolved. */
  function AwaitEffects(jobId: string, run: PollRun): seq<Effect>
  {
    Repeat(GetJobStatus(UserId, jobId), run.requests) +
      (if run.end.Resolved? then [] else [Alert("Error: " + run.end.Outcome().error)])
  }

  /** Statuses shown by a generate click that passed the guard. */
  function GenerateTexts(submitted: Result<JobTicket>, run: PollRun): seq<string>
  {
    ["SUBMITTING..."] + if submitted.Failure? then ["ERROR", "ERROR"] else AwaitTexts(run)
  }

  /** Effects of a generate click after the submission request. */
  function GenerateEffects(submitted: Result<JobTicket>, run: PollRun): seq<Effect>
  {
    match submitted
    case Failure(message) => [Alert("Error: " + message)]
    case Success(job) => AwaitEffects(job.jobId, run)
  }

  lemma Associate<T>(a: seq<T>, b: seq<T>, c: seq<T>)
    ensures a + b + c == a + (b + c)
  {
  }

  /** How the steps of `AwaitJob` compose: `QUEUED...`, the polling run, then the
      outcome's statuses and alert. */
  lemma AwaitSteps(b0: Option<ButtonState>, s0: seq<string>, e0: seq<Effect>, jobId: string, run: PollRun)
    ensures var tail := if run.end.Outcome().Success? then ["COMPLETE"] else ["ERROR", "ERROR"];
      s0 + ["QUEUED..."] + run.progress + tail == s0 + AwaitTexts(run) &&
      AfterStatusesIfPresent(AfterStatusesIfPresent(AfterStatusIfPresent(b0, "QUEUED..."), run.progress), tail) ==
        AfterStatusesIfPresent(b0, AwaitTexts(run))
    ensures var outcome := run.end.Outcome();
      e0 + Repeat(GetJobStatus(UserId, jobId), run.requests) +
        (if outcome.Success? then [] else [Alert("Error: " + outcome.error)]) ==
      e0 + AwaitEffects(jobId, run)
  {
    var tail := if run.end.Outcome().Success? then ["COMPLETE"] else ["ERROR", "ERROR"];
    assert run.end.Outcome().Success? <==> run.end.Resolved?;
    assert AwaitTexts(run) == ["QUEUED..."] + run.progress + tail;
    Associate(s0, ["QUEUED..."], run.progress);
    Associate(s0, ["QUEUED..."] + run.progress, tail);
    AfterStatusesSnoc(b0, [], "QUEUED...");
    assert [] + ["QUEUED..."] == ["QUEUED..."];
    AfterStatusesAppend(b0, ["QUEUED..."], run.progress);
    AfterStatusesAppend(b0, ["QUEUED..."] + run.progress, tail);
    var outcome := run.end.Outcome();
    Associate(e0, Repeat(GetJobStatus(UserId, jobId), run.requests),
              if outcome.Success? then [] else [Alert("Error: " + outcome.error)]);
  }

  /** Texts that re-enable the generate button. */
  predicate Idle(text: string)
  {
    text == "READY" || text == "COMPLETE"
  }

  /** A progress text is a busy text and does not re-enable the button. */
  lemma ProgressIsBusy(tick: nat)
    ensures IsBusy(ProgressText(tick)) && !Idle(ProgressText(tick))
  {
    ContainsAt(ProgressText(tick), "PROCESSING", 0);
  }

  /** Every status of a generate click but the last is `SUBMITTING...`,
      `QUEUED...`, `ERROR` or a progress text of the run. */
  lemma GenerateTextsBeforeLast(submitted: Result<JobTicket>, run: PollRun, k: nat)
    requires k < |GenerateTexts(submitted, run)| - 1
    ensures var text := GenerateTexts(submitted, run)[k];
      text == "SUBMITTING..." || text == "QUEUED..." || text == "ERROR" ||
      (submitted.Success? && 2 <= k < 2 + |run.progress| && text == run.progress[k - 2])
  {
  }

  /** Every status of a generate click but the last leaves the button as it was
      or disabled: none of them is `READY` or `COMPLETE`. */
  lemma GenerateTextsNotIdle(submitted: Result<JobTicket>, script: seq<HttpReply<JobData>>, k: nat)
    requires MaxPolls <= |script|
    requires k < |GenerateTexts(submitted, Poll(script))| - 1
    ensures !Idle(GenerateTexts(submitted, Poll(script))[k])
  {
    var run := Poll(script);
    GenerateTextsBeforeLast(submitted, run, k);
    if submitted.Success? && 2 <= k < 2 + |run.progress| &&
       GenerateTexts(submitted, run)[k] == run.progress[k - 2] {
      PollProgressNumbered(script, 0, k - 2);
      ProgressIsBusy(k - 1);
    }
  }

  /** From `SUBMITTING...` until the last status of a generate click, the button
      stays disabled: a second click cannot start a second job meanwhile. */
  lemma GenerateKeepsButtonDisabled(b: ButtonState, submitted: Result<JobTicket>,
                                    script: seq<HttpReply<JobData>>, n: nat)
    requires MaxPolls <= |script|
    requires 1 <= n < |GenerateTexts(submitted, Poll(script))|
    ensures AfterStatuses(b, GenerateTexts(submitted, Poll(script))[..n]).disabled
  {
    var texts := GenerateTexts(submitted, Poll(script));
    forall k | 0 <= k < n
      ensures texts[..n][k] != "READY" && texts[..n][k] != "COMPLETE"
    {
      GenerateTextsNotIdle(submitted, script, k);
    }
    UploadingAndSubmittingAreBusy();
    StaysDisabledUntilIdle(b, texts[..n]);
  }

  /** A generate click's last status is `COMPLETE` when the job resolved and
      `ERROR` otherwise. */
  lemma GenerateTextsLast(submitted: Result<JobTicket>, run: PollRun)
    ensures var texts := GenerateTexts(submitted, run);
      |texts| >= 2 && texts[|texts| - 1] == if submitted.Success? && run.end.Resolved? then "COMPLETE" else "ERROR"
  {
  }

  /** The last of a series of statuses after which the button was disabled decides
      it: `COMPLETE` enables it, `ERROR` keeps it disabled. */
  lemma FinalStatus(b: ButtonState, texts: seq<string>)
    requires |texts| >= 1 && AfterStatuses(b, texts[..|texts| - 1]).disabled
    requires texts[|texts| - 1] == "COMPLETE" || texts[|texts| - 1] == "ERROR"
    ensures AfterStatuses(b, texts) ==
      if texts[|texts| - 1] == "COMPLETE" then ButtonState(false, "GENERATE AGAIN") else ButtonState(true, "ERROR")
  {
    var before := AfterStatuses(b, texts[..|texts| - 1]);
    if texts[|texts| - 1] == "COMPLETE" {
      CompleteEnables(before);
    } else {
      ErrorKeepsDisabled(before);
    }
  }

  /** A generate click ends with the button enabled under `GENERATE AGAIN` when the
      job resolved, and disabled under `ERROR` after any failure. */
  lemma GenerateFinalButton(b: ButtonState, submitted: Result<JobTicket>, script: seq<HttpReply<JobData>>)
    requires MaxPolls <= |script|
    ensures AfterStatuses(b, GenerateTexts(submitted, Poll(script))) ==
      if submitted.Success? && Poll(script).end.Resolved? then ButtonState(false, "GENERATE AGAIN")
      else ButtonState(true, "ERROR")
  {
    var texts := GenerateTexts(submitted, Poll(script));
    GenerateTextsLast(submitted, Poll(script));
    GenerateKeepsButtonDisabled(b, submitted, script, |texts| - 1);
    FinalStatus(b, texts);
  }

  class Page {
    /** `currentUploadedUrl`: the single session slot. */
    var currentUploadedUrl: Option<string>
    /** `#generate-btn`, absent when the page has no such element. */
    var generateButton: Option<ButtonState>
    /** `#download-btn`, absent when the page has no such element. */
    var downloadButton: Option<DownloadButton>
    /** Whether `#reset-btn` exists (and so carries the reset handler). */
    const hasResetButton: bool

    /** Every text passed to `updateStatus`, in order. */
    ghost var Statuses: seq<string>
    /** Every request, alert, save and opened tab, in order. */
    ghost var Effects: seq<Effect>

    /** The page once loaded: nothing uploaded yet (script.js:6). */
    constructor (generate: Option<ButtonState>, download: Option<DownloadButton>, hasReset: bool)
      ensures currentUploadedUrl == None
      ensures generateButton == generate && downloadButton == download && hasResetButton == hasReset
      ensures Statuses == [] && Effects == []
    {
      currentUploadedUrl := None;
      generateButton := generate;
      downloadButton := download;
      hasResetButton := hasReset;
      Statuses := [];
      Effects := [];
    }

    /** `updateStatus(text)`: only the generate button changes. */
    method UpdateStatus(text: string)
      modifies this
      ensures generateButton == AfterStatusIfPresent(old(generateButton), text)
      ensures Statuses == old(Statuses) + [text]
      ensures currentUploadedUrl == old(currentUploadedUrl) && downloadButton == old(downloadButton)
      ensures Effects == old(Effects)
    {
      Statuses := Statuses + [text];
      if generateButton.Some? {
        generateButton := Some(AfterStatus(generateButton.value, text));
      }
    }

    /** `showError(msg)`: an alert, then the `ERROR` status. */
    method ShowError(message: string)
      modifies this
      ensures Effects == old(Effects) + [Alert("Error: " + message)]
      ensures generateButton == AfterStatusIfPresent(old(generateButton), "ERROR")
      ensures Statuses == old(Statuses) + ["ERROR"]
      ensures currentUploadedUrl == old(currentUploadedUrl) && downloadButton == old(downloadButton)
    {
      Effects := Effects + [Alert("Error: " + message)];
      UpdateStatus("ERROR");
    }

    /** The part of `showPreview` that is state: the generate button is enabled. */
    method ShowPreview()
      modifies this
      ensures generateButton == if old(generateButton).Some? then Some(old(generateButton).value.(disabled := false)) else None
      ensures currentUploadedUrl == old(currentUploadedUrl) && downloadButton == old(downloadButton)
      ensures Statuses == old(Statuses) && Effects == old(Effects)
    {
      if generateButton.Some? {
        generateButton := Some(generateButton.value.(disabled := false));
      }
    }

    /** The part of `showResultMedia(url)` that is state: the download button gets
        the URL and loses its `disabled` class. */
    method ShowResultMedia(url: string)
      modifies this
      ensures downloadButton == WithResult(old(downloadButton), Some(url))
      ensures currentUploadedUrl == old(currentUploadedUrl) && generateButton == old(generateButton)
      ensures Statuses == old(Statuses) && Effects == old(Effects)
    {
      downloadButton := WithResult(downloadButton, Some(url));
    }

    /** A click on the reset button: clears the session slot, disables the generate
        button under `APPLY EFFECT`, and withdraws the download URL. Without a reset
        button there is no handler and nothing happens. */
    method ClickReset()
      modifies this
      ensures currentUploadedUrl == if hasResetButton then None else old(currentUploadedUrl)
      ensures generateButton ==
        if hasResetButton && old(generateButton).Some? then Some(ButtonState(true, "APPLY EFFECT"))
        else old(generateButton)
      ensures downloadButton == if hasResetButton then ResetDownload(old(downloadButton)) else old(downloadButton)
      ensures Statuses == old(Statuses) && Effects == old(Effects)
    {
      if hasResetButton {
        currentUploadedUrl := None;
        if generateButton.Some? {
          generateButton := Some(ButtonState(true, "APPLY EFFECT"));
        }
        downloadButton := ResetDownload(downloadButton);
      }
    }

    /** `handleFileSelect(file)`: nothing without a file; otherwise the upload. */
    method HandleFileSelect(file: Option<Upload.File>, draws: seq<NanoId.Draw>,
                            signed: HttpReply<string>, put: HttpReply<()>)
      requires NanoId.DefaultLength <= |draws|
      modifies this
      ensures file.None? ==>
        currentUploadedUrl == old(currentUploadedUrl) && generateButton == old(generateButton) &&
        downloadButton == old(downloadButton) && Statuses == old(Statuses) && Effects == old(Effects)
      ensures file.Some? ==>
        var run := Upload.UploadFile(file.value, NanoId.Spell(draws[..NanoId.DefaultLength]), signed, put);
        UploadOutcome(run, old(currentUploadedUrl), old(generateButton), old(downloadButton),
                      old(Statuses), old(Effects))
    {
      if file.None? {
        return;
      }
      UploadSelected(file.value, draws, signed, put);
    }

    /** The state after `handleFileSelect` ran an upload `run`, from the state before:
        on success the slot holds the public URL and the button reads
        `APPLY EFFECT`, enabled; on failure the error is shown and the reset button,
        if any, is clicked. */
    ghost predicate UploadOutcome(run: Upload.UploadRun, slot0: Option<string>, button0: Option<ButtonState>,
                                  download0: Option<DownloadButton>, statuses0: seq<string>, effects0: seq<Effect>)
      reads this
    {
      match run.result
      case Success(url) =>
        currentUploadedUrl == Some(url) &&
        generateButton == (if button0.Some? then Some(ButtonState(false, "APPLY EFFECT")) else None) &&
        downloadButton == download0 &&
        Statuses == statuses0 + ["UPLOADING...", "READY"] &&
        Effects == effects0 + run.sent
      case Failure(message) =>
        currentUploadedUrl == (if hasResetButton then None else slot0) &&
        generateButton == (if button0.None? then None
                           else if hasResetButton then Some(ButtonState(true, "APPLY EFFECT"))
                           else Some(ButtonState(true, "ERROR"))) &&
        downloadButton == (if hasResetButton then ResetDownload(download0) else download0) &&
        Statuses == statuses0 + ["UPLOADING...", "ERROR", "ERROR"] &&
        Effects == effects0 + run.sent + [Alert("Error: " + message)]
    }

    /** The `try` block of `handleFileSelect` for a selected file. */
    method UploadSelected(file: Upload.File, draws: seq<NanoId.Draw>,
                          signed: HttpReply<string>, put: HttpReply<()>)
      requires NanoId.DefaultLength <= |draws|
      modifies this
      ensures var run := Upload.UploadFile(file, NanoId.Spell(draws[..NanoId.DefaultLength]), signed, put);
        UploadOutcome(run, old(currentUploadedUrl), old(generateButton), old(downloadButton),
                      old(Statuses), old(Effects))
    {
      ShowPreview();
      UpdateStatus("UPLOADING...");
      UploadingAndSubmittingAreBusy();
      var id := NanoId.GenerateNanoId(NanoId.DefaultLength, draws);
      var run := Upload.UploadFile(file, id, signed, put);
      UploadSettled(run, old(currentUploadedUrl), old(generateButton), old(downloadButton),
                    old(Statuses), old(Effects));
    }

    /** The upload's requests, then the `try` block's rest or the `catch` block,
        from the state `UPLOADING...` left. */
    method UploadSettled(run: Upload.UploadRun, ghost slot0: Option<string>, ghost button0: Option<ButtonState>,
                         ghost download0: Option<DownloadButton>, ghost statuses0: seq<string>,
                         ghost effects0: seq<Effect>)
      requires currentUploadedUrl == slot0 && downloadButton == download0 && Effects == effects0
      requires generateButton == if button0.Some? then Some(ButtonState(true, "UPLOADING...")) else None
      requires Statuses == statuses0 + ["UPLOADING..."]
      modifies this
      ensures UploadOutcome(run, slot0, button0, download0, statuses0, effects0)
    {
      Effects := Effects + run.sent;
      match run.result {
        case Success(url) => UploadSucceeded(url);
        case Failure(message) => UploadFailed(message);
      }
    }

    /** The rest of the `try` block of `handleFileSelect` once `uploadFile` resolved. */
    method UploadSucceeded(url: string)
      modifies this
      ensures currentUploadedUrl == Some(url)
      ensures generateButton == if old(generateButton).Some? then Some(ButtonState(false, "APPLY EFFECT")) else None
      ensures downloadButton == old(downloadButton)
      ensures Statuses == old(Statuses) + ["READY"] && Effects == old(Effects)
    {
      currentUploadedUrl := Some(url);
      ShowPreview();
      UpdateStatus("READY");
      if generateButton.Some? {
        ReadyEnables(old(generateButton).value);
      }
    }

    /** The `catch` block of `handleFileSelect`. */
    method UploadFailed(message: string)
      modifies this
      ensures currentUploadedUrl == if hasResetButton then None else old(currentUploadedUrl)
      ensures generateButton ==
        if old(generateButton).None? then None
        else if hasResetButton then Some(ButtonState(true, "APPLY EFFECT"))
        else Some(old(generateButton).value.(caption := "ERROR"))
      ensures downloadButton == if hasResetButton then ResetDownload(old(downloadButton)) else old(downloadButton)
      ensures Statuses == old(Statuses) + ["ERROR", "ERROR"]
      ensures Effects == old(Effects) + [Alert("Error: " + message)]
    {
      UpdateStatus("ERROR");
      ShowError(message);
      if generateButton.Some? {
        ErrorKeepsDisabled(old(generateButton).value);
        ErrorKeepsDisabled(old(generateButton).value.(caption := "ERROR"));
      }
      if hasResetButton {
        ClickReset();
      }
    }

    /** `pollJobStatus(jobId)`: at most MaxPolls status requests, one progress
        status per undecided response; `script[k]` answers the (k+1)-th request. */
    method PollJobStatus(jobId: string, script: seq<HttpReply<JobData>>) returns (result: Result<JobData>)
      requires MaxPolls <= |script|
      modifies this
      ensures result == Poll(script).end.Outcome()
      ensures result.Success? ==> Truthy(result.value.resultUrl)
      ensures Effects == old(Effects) + Repeat(GetJobStatus(UserId, jobId), Poll(script).requests)
      ensures Statuses == old(Statuses) + Poll(script).progress
      ensures generateButton == AfterStatusesIfPresent(old(generateButton), Poll(script).progress)
      ensures currentUploadedUrl == old(currentUploadedUrl) && downloadButton == old(downloadButton)
    {
      var polls, decision := AwaitDecision(jobId, script);
      PollStopsAt(script, polls, decision);
      // Without a decision the loop ran out, and the timeout is thrown.
      var end := if decision.Some? then decision.value else TimedOut;
      result := end.Outcome();
    }

    /** The logs and the generate button after `requests` status requests of which
        the first `ticks` were undecided, from the state before the polling. */
    ghost predicate Polled(jobId: string, ticks: nat, requests: nat, effects0: seq<Effect>,
                           statuses0: seq<string>, button0: Option<ButtonState>)
      reads this
    {
      Effects == effects0 + Repeat(GetJobStatus(UserId, jobId), requests) &&
      Statuses == statuses0 + Ticks(ticks) &&
      generateButton == AfterStatusesIfPresent(button0, Ticks(ticks))
    }

    /** The loop of `pollJobStatus`: requests statuses until a response decides the
        job, or MaxPolls requests went undecided (`decision` is then `None`). */
    method AwaitDecision(jobId: string, script: seq<HttpReply<JobData>>)
      returns (polls: nat, decision: Option<PollEnd>)
      requires MaxPolls <= |script|
      modifies this
      ensures polls <= MaxPolls && (decision.Some? <==> polls < MaxPolls)
      ensures Undecided(script, polls)
      ensures decision.Some? ==> decision == TickEnd(script[polls])
      ensures Effects == old(Effects) + Repeat(GetJobStatus(UserId, jobId), if decision.Some? then polls + 1 else polls)
      ensures Statuses == old(Statuses) + Ticks(polls)
      ensures generateButton == AfterStatusesIfPresent(old(generateButton), Ticks(polls))
      ensures currentUploadedUrl == old(currentUploadedUrl) && downloadButton == old(downloadButton)
    {
      polls, decision := 0, None;
      while polls < MaxPolls && decision.None?
        invariant polls <= MaxPolls && (decision.Some? ==> polls < MaxPolls)
        invariant Undecided(script, polls)
        invariant decision.Some? ==> decision == TickEnd(script[polls])
        invariant Polled(jobId, polls, if decision.Some? then polls + 1 else polls,
                         old(Effects), old(Statuses), old(generateButton))
        invariant currentUploadedUrl == old(currentUploadedUrl) && downloadButton == old(downloadButton)
        decreases MaxPolls - polls, if decision.None? then 1 else 0
      {
        decision := PollOnce(jobId, script, polls, old(Effects), old(Statuses), old(generateButton));
        if decision.None? {
          UndecidedSnoc(script, polls);
          polls := polls + 1;
        }
      }
    }

    /** One pass of the loop of `pollJobStatus`: request the status, then either
        stop on a deciding response or show the tick's progress text. */
    method PollOnce(jobId: string, script: seq<HttpReply<JobData>>, polls: nat,
                    ghost effects0: seq<Effect>, ghost statuses0: seq<string>, ghost button0: Option<ButtonState>)
      returns (decision: Option<PollEnd>)
      requires polls < MaxPolls <= |script|
      requires Polled(jobId, polls, polls, effects0, statuses0, button0)
      modifies this
      ensures decision == TickEnd(script[polls])
      ensures Polled(jobId, if decision.Some? then polls else polls + 1, polls + 1, effects0, statuses0, button0)
      ensures currentUploadedUrl == old(currentUploadedUrl) && downloadButton == old(downloadButton)
    {
      Effects := Effects + [GetJobStatus(UserId, jobId)];
      Associate(effects0, Repeat(GetJobStatus(UserId, jobId), polls), [GetJobStatus(UserId, jobId)]);
      decision := TickEnd(script[polls]);
      if decision.None? {
        ShowProgress(polls, statuses0, button0);
      }
    }

    /** The progress text of an undecided tick, shown after the ticks before it. */
    method ShowProgress(polls: nat, ghost statuses0: seq<string>, ghost button0: Option<ButtonState>)
      requires Statuses == statuses0 + Ticks(polls)
      requires generateButton == AfterStatusesIfPresent(button0, Ticks(polls))
      modifies this
      ensures Statuses == statuses0 + Ticks(polls + 1)
      ensures generateButton == AfterStatusesIfPresent(button0, Ticks(polls + 1))
      ensures Effects == old(Effects)
      ensures currentUploadedUrl == old(currentUploadedUrl) && downloadButton == old(downloadButton)
    {
      AfterStatusesSnoc(button0, Ticks(polls), ProgressText(polls + 1));
      UpdateStatus(ProgressText(polls + 1));
      Associate(statuses0, Ticks(polls), [ProgressText(polls + 1)]);
    }

    /** The `catch` block of `handleGenerate`. */
    method GenerateFailed(message: string)
      modifies this
      ensures generateButton == AfterStatusesIfPresent(old(generateButton), ["ERROR", "ERROR"])
      ensures Statuses == old(Statuses) + ["ERROR", "ERROR"]
      ensures Effects == old(Effects) + [Alert("Error: " + message)]
      ensures currentUploadedUrl == old(currentUploadedUrl) && downloadButton == old(downloadButton)
    {
      AfterStatusesSnoc(old(generateButton), [], "ERROR");
      AfterStatusesSnoc(old(generateButton), ["ERROR"], "ERROR");
      assert [] + ["ERROR"] == ["ERROR"];
      assert ["ERROR"] + ["ERROR"] == ["ERROR", "ERROR"];
      UpdateStatus("ERROR");
      ShowError(message);
    }

    /** The `try` block of `handleGenerate` after the job was created: poll it,
        then show the result, or report the failure. */
    method AwaitJob(jobId: string, script: seq<HttpReply<JobData>>)
      requires MaxPolls <= |script|
      modifies this
      ensures Statuses == old(Statuses) + AwaitTexts(Poll(script))
      ensures generateButton == AfterStatusesIfPresent(old(generateButton), AwaitTexts(Poll(script)))
      ensures Effects == old(Effects) + AwaitEffects(jobId, Poll(script))
      ensures downloadButton ==
        if Poll(script).end.Resolved? then WithResult(old(downloadButton), Poll(script).end.data.resultUrl)
        else old(downloadButton)
      ensures currentUploadedUrl == old(currentUploadedUrl)
    {
      ghost var b0, s0, e0 := generateButton, Statuses, Effects;
      ghost var run := Poll(script);
      UpdateStatus("QUEUED...");
      var polled := PollJobStatus(jobId, script);
      ShowOutcome(polled);
      AwaitSteps(b0, s0, e0, jobId, run);
    }

    /** The end of the `try` block of `handleGenerate` once polling resolved, or its
        `catch` block once polling failed. */
    method ShowOutcome(polled: Result<JobData>)
      requires polled.Success? ==> Truthy(polled.value.resultUrl)
      modifies this
      ensures var tail := if polled.Success? then ["COMPLETE"] else ["ERROR", "ERROR"];
        Statuses == old(Statuses) + tail &&
        generateButton == AfterStatusesIfPresent(old(generateButton), tail)
      ensures Effects == old(Effects) + if polled.Success? then [] else [Alert("Error: " + polled.error)]
      ensures downloadButton ==
        if polled.Success? then WithResult(old(downloadButton), polled.value.resultUrl) else old(downloadButton)
      ensures currentUploadedUrl == old(currentUploadedUrl)
    {
      if polled.Failure? {
        GenerateFailed(polled.error);
      } else {
        ShowResultMedia(polled.value.resultUrl.value);
        UpdateStatus("COMPLETE");
        AfterStatusesSnoc(old(generateButton), [], "COMPLETE");
        assert [] + ["COMPLETE"] == ["COMPLETE"];
      }
    }

    /** The `try` block of `handleGenerate` once the guard passed. */
    method SubmitAndAwait(imageUrl: string, submitReply: HttpReply<JobTicket>, script: seq<HttpReply<JobData>>)
      requires MaxPolls <= |script|
      modifies this
      ensures currentUploadedUrl == old(currentUploadedUrl)
      ensures var submitted := SubmitImageGenJob(imageUrl, submitReply);
        Statuses == old(Statuses) + GenerateTexts(submitted.result, Poll(script)) &&
        generateButton == AfterStatusesIfPresent(old(generateButton), GenerateTexts(submitted.result, Poll(script))) &&
        Effects == old(Effects) + submitted.sent + GenerateEffects(submitted.result, Poll(script)) &&
        downloadButton ==
          if submitted.result.Success? && Poll(script).end.Resolved? then
            WithResult(old(downloadButton), Poll(script).end.data.resultUrl)
          else old(downloadButton)
    {
      ghost var b0, s0 := generateButton, Statuses;
      UpdateStatus("SUBMITTING...");
      AfterStatusesSnoc(b0, [], "SUBMITTING...");
      assert [] + ["SUBMITTING..."] == ["SUBMITTING..."];
      var submitted := SubmitImageGenJob(imageUrl, submitReply);
      Effects := Effects + submitted.sent;
      ghost var rest := GenerateTexts(submitted.result, Poll(script))[1..];
      match submitted.result {
        case Failure(message) =>
          GenerateFailed(message);
        case Success(job) =>
          AwaitJob(job.jobId, script);
      }
      assert GenerateTexts(submitted.result, Poll(script)) == ["SUBMITTING..."] + rest;
      AfterStatusesAppend(b0, ["SUBMITTING..."], rest);
      Associate(s0, ["SUBMITTING..."], rest);
    }

    /** A click on the download button: nothing without a button or a URL; otherwise
        fetch the result and save it, else save the shown image through a canvas,
        else open the URL in a new tab. The caption shows `Downloading...` and the
        button its `disabled` class only while the click is handled. */
    method ClickDownload(fetched: HttpReply<()>, img: Download.ImageProbe, canvasThrows: bool,
                         draws: seq<NanoId.Draw>)
      requires Download.ShortIdLength <= |draws|
      modifies this
      ensures currentUploadedUrl == old(currentUploadedUrl) && generateButton == old(generateButton)
      ensures Statuses == old(Statuses)
      ensures old(downloadButton).None? || !Truthy(old(downloadButton).value.url) ==>
        downloadButton == old(downloadButton) && Effects == old(Effects)
      ensures old(downloadButton).Some? && Truthy(old(downloadButton).value.url) ==>
        var url := old(downloadButton).value.url.value;
        downloadButton == Some(old(downloadButton).value.(disabled := false)) &&
        Effects == old(Effects) + Download.DownloadEffects(url,
          Download.ChooseStrategy(fetched, img, canvasThrows), NanoId.Spell(draws[..Download.ShortIdLength]))
    {
      if downloadButton.None? || !Truthy(downloadButton.value.url) {
        return;
      }
      var button := downloadButton.value;
      var url := button.url.value;
      downloadButton := Some(button.(caption := "Downloading...", disabled := true));
      var strategy := Download.ChooseStrategy(fetched, img, canvasThrows);
      ghost var id := NanoId.Spell(draws[..Download.ShortIdLength]);
      var saved: Effect;
      match strategy {
        case DirectSave =>
          var token := NanoId.GenerateNanoId(Download.ShortIdLength, draws);
          saved := SaveAs(Download.DirectFileName(token));
        case CanvasSave =>
          saved := SaveAs(Download.FallbackFileName);
        case NewTab =>
          saved := OpenTab(url);
      }
      assert [FetchResult(url), saved] == Download.DownloadEffects(url, strategy, id);
      Effects := Effects + [FetchResult(url), saved];
      downloadButton := Some(button.(disabled := false));
    }

    /** `handleGenerate()`: nothing but an alert without an uploaded image;
        otherwise submit the slot's URL, poll the job, and show the result, with
        any failure reported once. The slot itself is never changed. */
    method HandleGenerate(submitReply: HttpReply<JobTicket>, script: seq<HttpReply<JobData>>)
      requires MaxPolls <= |script|
      modifies this
      ensures currentUploadedUrl == old(currentUploadedUrl)
      ensures !Truthy(old(currentUploadedUrl)) ==>
        Effects == old(Effects) + [Alert("Please upload an image first.")] &&
        Statuses == old(Statuses) && generateButton == old(generateButton) &&
        downloadButton == old(downloadButton)
      ensures Truthy(old(currentUploadedUrl)) ==>
        var submitted := SubmitImageGenJob(old(currentUploadedUrl).value, submitReply);
        Statuses == old(Statuses) + GenerateTexts(submitted.result, Poll(script)) &&
        generateButton == AfterStatusesIfPresent(old(generateButton), GenerateTexts(submitted.result, Poll(script))) &&
        Effects == old(Effects) + submitted.sent + GenerateEffects(submitted.result, Poll(script)) &&
        downloadButton ==
          if submitted.result.Success? && Poll(script).end.Resolved? then
            WithResult(old(downloadButton), Poll(script).end.data.resultUrl)
          else old(downloadButton)
    {
      if !Truthy(currentUploadedUrl) {
        Effects := Effects + [Alert("Please upload an image first.")];
        return;
      }
      SubmitAndAwait(currentUploadedUrl.value, submitReply, script);
    }
  }
}
