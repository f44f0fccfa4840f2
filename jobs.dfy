/** Job submission, result-URL extraction and the specification of the bounded
    status polling (script.js:86-172). */
module Jobs {
  import opened Wrappers
  import opened Text
  import opened Web

  const UserId := "DObRu1vyStbUynoQmTcHBlhs55z2"
  const MaxPolls := 60

  // ---------------------------------------------------------------------------
  // Submission (script.js:86-122)

  /** The request body: fixed configuration except for the image URL. */
  function SubmitBody(imageUrl: string): (body: JobRequest)
    ensures body.imageUrl == imageUrl && body.userId == UserId
  {
    JobRequest("image-effects", "image-effects", "mugshot", imageUrl, UserId, true, true)
  }

  /** Two submissions differ in their bodies only in `imageUrl`. */
  lemma SubmitBodyConstantBesidesImage(u: string, v: string)
    ensures SubmitBody(u).(imageUrl := v) == SubmitBody(v)
    ensures SubmitBody(u) == SubmitBody(v) <==> u == v
  {
  }

  /** The created job, as the response body describes it. */
  datatype JobTicket = JobTicket(jobId: string, status: string)

  datatype SubmitRun = SubmitRun(result: Result<JobTicket>, sent: seq<Effect>)

  /** `submitImageGenJob(imageUrl)`: one POST; the parsed body on success. */
  function SubmitImageGenJob(imageUrl: string, reply: HttpReply<JobTicket>): (run: SubmitRun)
    ensures run.sent == [PostJob(SubmitBody(imageUrl))]
    ensures run.result.Success? <==> reply.Succeeded()
    ensures run.result.Success? ==> run.result.value == reply.body
    ensures reply.Answered? && !reply.ok ==>
      run.result == Failure("Failed to submit job: " + reply.statusText)
  {
    var sent := [PostJob(SubmitBody(imageUrl))];
    match reply
    case Rejected(reason) => SubmitRun(Failure(reason), sent)
    case Answered(ok, statusText, data) =>
      if !ok then SubmitRun(Failure("Failed to submit job: " + statusText), sent)
      else SubmitRun(Success(data), sent)
  }

  // ---------------------------------------------------------------------------
  // Result-URL extraction (script.js:149-150)

  /** One element of `data.result`; each field is absent or a string. */
  datatype MediaItem = MediaItem(mediaUrl: Option<string>, video: Option<string>, image: Option<string>)

  /** `data.result`: missing, a single object, or an array of objects. */
  datatype ResultField = NoResult | Single(item: MediaItem) | Many(items: seq<MediaItem>)

  /** A parsed status response. `resultUrl` is absent in what the service sends and
      is what the polling adds on success. */
  datatype JobData = JobData(status: string, result: ResultField, error: Option<string>, resultUrl: Option<string>)

  /** `Array.isArray(result) ? result[0] : result`. */
  function ResultItem(result: ResultField): (item: Option<MediaItem>)
    ensures item.None? <==> result.NoResult? || result == Many([])
    ensures result.Single? ==> item == Some(result.item)
    ensures result.Many? && result.items != [] ==> item == Some(result.items[0])
  {
    match result
    case NoResult => None
    case Single(m) => Some(m)
    case Many(ms) => if ms == [] then None else Some(ms[0])
  }

  /** `a || b`, restricted to whether the result is truthy. */
  function Or(a: Option<string>, b: Option<string>): Option<string>
  {
    if Truthy(a) then a else if Truthy(b) then b else None
  }

  /** `item?.mediaUrl || item?.video || item?.image`, kept only when truthy. */
  function ResultUrl(result: ResultField): (url: Option<string>)
    ensures url.Some? ==> url.value != ""
    ensures url.Some? <==> (ResultItem(result).Some? &&
      var m := ResultItem(result).value;
      Truthy(m.mediaUrl) || Truthy(m.video) || Truthy(m.image))
    ensures url.Some? ==>
      var m := ResultItem(result).value;
      url == (if Truthy(m.mediaUrl) then m.mediaUrl else if Truthy(m.video) then m.video else m.image)
  {
    match ResultItem(result)
    case None => None
    case Some(m) => Or(m.mediaUrl, Or(m.video, m.image))
  }

  /** A list stands for its first element; the rest is ignored. */
  lemma ResultUrlOfList(ms: seq<MediaItem>)
    requires ms != []
    ensures ResultUrl(Many(ms)) == ResultUrl(Single(ms[0]))
  {
  }

  // ---------------------------------------------------------------------------
  // Polling (script.js:125-172)

  /** How a polling run ends. */
  datatype PollEnd =
    | Resolved(data: JobData)       // completed with a result URL
    | CheckFailed(message: string)  // the status request was rejected or not ok
    | JobFailed(message: string)    // the service reported `failed` or `error`
    | TimedOut                      // MaxPolls requests without a decision
  {
    /** What `pollJobStatus` returns or throws. */
    function Outcome(): Result<JobData>
    {
      match this
      case Resolved(data) => Success(data)
      case CheckFailed(message) => Failure(message)
      case JobFailed(message) => Failure(message)
      case TimedOut => Failure(TimeoutMessage)
    }
  }

  /** `'Job timed out after ' + MAX_POLLS + ' polls'`. */
  const TimeoutMessage := "Job timed out after " + DecimalString(MaxPolls) + " polls"

  /** `data.error || 'Job processing failed'`. */
  function FailureMessage(error: Option<string>): (message: string)
    ensures message != ""
    ensures Truthy(error) ==> message == error.value
    ensures !Truthy(error) ==> message == "Job processing failed"
  {
    if Truthy(error) then error.value else "Job processing failed"
  }

  /** The decision one status response forces, if any: `None` means keep polling. */
  function TickEnd(reply: HttpReply<JobData>): (decision: Option<PollEnd>)
    ensures decision.Some? ==> !decision.value.TimedOut?
    ensures decision.Some? && decision.value.Resolved? ==>
      reply.Succeeded() && reply.body.status == "completed" && Truthy(decision.value.data.resultUrl)
  {
    match reply
    case Rejected(reason) => Some(CheckFailed(reason))
    case Answered(ok, statusText, data) =>
      if !ok then Some(CheckFailed("Failed to check status: " + statusText))
      else if data.status == "completed" && ResultUrl(data.result).Some? then
        Some(Resolved(data.(resultUrl := ResultUrl(data.result))))
      else if data.status == "failed" || data.status == "error" then
        Some(JobFailed(FailureMessage(data.error)))
      else None
  }

  /** A response leaves the decision open exactly when it was answered with ok, is
      neither `failed` nor `error`, and is not `completed` with a result URL: a
      `completed` response without a usable URL keeps the polling going. */
  lemma TickEndUndecided(reply: HttpReply<JobData>)
    ensures TickEnd(reply).None? <==>
      reply.Succeeded() && reply.body.status != "failed" && reply.body.status != "error" &&
      !(reply.body.status == "completed" && ResultUrl(reply.body.result).Some?)
  {
  }

  /** None of the first `n` responses decides the job. */
  predicate Undecided(script: seq<HttpReply<JobData>>, n: nat)
    requires n <= |script|
  {
    forall j | 0 <= j < n :: TickEnd(script[j]).None?
  }

  /** One more undecided response extends the undecided prefix. */
  lemma UndecidedSnoc(script: seq<HttpReply<JobData>>, n: nat)
    requires n < |script| && Undecided(script, n) && TickEnd(script[n]).None?
    ensures Undecided(script, n + 1)
  {
  }

  /** `'PROCESSING... (' + tick + ')'`, shown for the tick-th undecided response. */
  function ProgressText(tick: nat): string
  {
    "PROCESSING... (" + DecimalString(tick) + ")"
  }

  /** The progress texts of the first `n` ticks, in order. */
  function Ticks(n: nat): (ts: seq<string>)
    ensures |ts| == n
  {
    if n == 0 then [] else Ticks(n - 1) + [ProgressText(n)]
  }

  /** A whole polling run: its end, the number of status requests it makes, and the
      progress texts it shows. */
  datatype PollRun = PollRun(end: PollEnd, requests: nat, progress: seq<string>)

  /** The loop of `pollJobStatus` from the state where `polls` requests have been
      answered without a decision; `script[k]` answers the (k+1)-th request. */
  function PollFrom(script: seq<HttpReply<JobData>>, polls: nat): (run: PollRun)
    requires polls <= MaxPolls <= |script|
    ensures run.end.Resolved? ==> Truthy(run.end.data.resultUrl)
    decreases MaxPolls - polls
  {
    if polls == MaxPolls then PollRun(TimedOut, polls, [])
    else match TickEnd(script[polls])
      case Some(end) => PollRun(end, polls + 1, [])
      case None =>
        var rest := PollFrom(script, polls + 1);
        PollRun(rest.end, rest.requests, [ProgressText(polls + 1)] + rest.progress)
  }

  /** The run from the start, for a script of responses. */
  function Poll(script: seq<HttpReply<JobData>>): (run: PollRun)
    requires MaxPolls <= |script|
    ensures 1 <= run.requests <= MaxPolls
    ensures run.end.TimedOut? ==> run.requests == MaxPolls
    ensures |run.progress| == if run.end.TimedOut? then run.requests else run.requests - 1
  {
    PollBounded(script, 0);
    PollFrom(script, 0)
  }

  /** An undecided response adds its progress text in front of the rest of the run. */
  lemma PollStepUndecided(script: seq<HttpReply<JobData>>, p: nat)
    requires p < MaxPolls <= |script|
    requires TickEnd(script[p]).None?
    ensures var rest := PollFrom(script, p + 1);
            PollFrom(script, p) == PollRun(rest.end, rest.requests, [ProgressText(p + 1)] + rest.progress)
  {
  }

  /** After `p` undecided responses the run continues as from `p`, having shown the
      first `p` progress texts. */
  lemma {:induction false} PollSkipsUndecided(script: seq<HttpReply<JobData>>, p: nat)
    requires p <= MaxPolls <= |script|
    requires Undecided(script, p)
    ensures var rest := PollFrom(script, p);
            Poll(script) == PollRun(rest.end, rest.requests, Ticks(p) + rest.progress)
  {
    if p > 0 {
      assert Undecided(script, p - 1) && TickEnd(script[p - 1]).None?;
      PollSkipsUndecided(script, p - 1);
      PollStepUndecided(script, p - 1);
      var rest := PollFrom(script, p);
      assert Ticks(p - 1) + ([ProgressText(p)] + rest.progress) == Ticks(p) + rest.progress;
    }
  }

  /** The first response that forces a decision ends the run: it is answered by the
      (i+1)-th request, after the progress texts of the i ticks before it. */
  lemma PollEndsAtFirstDecision(script: seq<HttpReply<JobData>>, i: nat)
    requires i < MaxPolls <= |script|
    requires Undecided(script, i)
    requires TickEnd(script[i]).Some?
    ensures Poll(script) == PollRun(TickEnd(script[i]).value, i + 1, Ticks(i))
  {
    PollSkipsUndecided(script, i);
    assert Ticks(i) + [] == Ticks(i);
  }

  /** Without a deciding response among the first MaxPolls, the run makes exactly
      MaxPolls requests, shows MaxPolls progress texts and times out. */
  lemma PollTimesOut(script: seq<HttpReply<JobData>>, n: nat)
    requires n == MaxPolls <= |script|
    requires Undecided(script, n)
    ensures Poll(script) == PollRun(TimedOut, n, Ticks(n))
  {
    PollSkipsUndecided(script, n);
    assert Ticks(n) + [] == Ticks(n);
  }

  /** How the run ends at its first deciding response: a rejected request fails
      with the rejection, a non-ok one with `Failed to check status: ` and the status
      text, `failed` or `error` with the response's error or `Job processing failed`,
      and `completed` with a result URL succeeds with that URL added to the response. */
  lemma PollOutcomeAt(script: seq<HttpReply<JobData>>, i: nat)
    requires i < MaxPolls <= |script|
    requires Undecided(script, i)
    requires TickEnd(script[i]).Some?
    ensures var reply, outcome := script[i], Poll(script).end.Outcome();
      (reply.Rejected? ==> outcome == Failure(reply.reason)) &&
      (reply.Answered? && !reply.ok ==> outcome == Failure("Failed to check status: " + reply.statusText)) &&
      (reply.Succeeded() && reply.body.status == "completed" ==>
         outcome == Success(reply.body.(resultUrl := ResultUrl(reply.body.result)))) &&
      (reply.Succeeded() && (reply.body.status == "failed" || reply.body.status == "error") ==>
         outcome == Failure(if Truthy(reply.body.error) then reply.body.error.value else "Job processing failed"))
  {
    PollEndsAtFirstDecision(script, i);
  }

  /** The run stops where the first deciding response is, or times out after
      MaxPolls undecided ones; either way it has shown the ticks before it. */
  lemma PollStopsAt(script: seq<HttpReply<JobData>>, n: nat, decision: Option<PollEnd>)
    requires n <= MaxPolls <= |script| && Undecided(script, n)
    requires decision.Some? <==> n < MaxPolls
    requires decision.Some? ==> decision == TickEnd(script[n])
    ensures Poll(script) ==
      if decision.Some? then PollRun(decision.value, n + 1, Ticks(n))
      else PollRun(TimedOut, n, Ticks(n))
  {
    if decision.Some? {
      PollEndsAtFirstDecision(script, n);
    } else {
      PollTimesOut(script, n);
    }
  }

  /** The timeout message spells out the bound: `Job timed out after 60 polls`. */
  lemma TimeoutMessageText()
    ensures TimeoutMessage == "Job timed out after 60 polls"
  {
    assert DecimalString(6) == ['6'];
    assert DecimalString(60) == DecimalString(6) + ['0'];
  }

  /** Every run stops within MaxPolls requests; it shows one progress text per
      request except the deciding one, and only a run of MaxPolls requests times out. */
  lemma {:induction false} PollBounded(script: seq<HttpReply<JobData>>, p: nat)
    requires p <= MaxPolls <= |script|
    ensures var run := PollFrom(script, p);
            p <= run.requests <= MaxPolls &&
            (run.end.TimedOut? ==> run.requests == MaxPolls && |run.progress| == MaxPolls - p) &&
            (!run.end.TimedOut? ==> p < run.requests && |run.progress| == run.requests - p - 1)
    decreases MaxPolls - p
  {
    if p < MaxPolls && TickEnd(script[p]).None? {
      PollBounded(script, p + 1);
    }
  }

  /** The k-th progress text of a run carries the 1-based number of its tick. */
  lemma {:induction false} PollProgressNumbered(script: seq<HttpReply<JobData>>, p: nat, k: nat)
    requires p <= MaxPolls <= |script|
    requires k < |PollFrom(script, p).progress|
    ensures PollFrom(script, p).progress[k] == ProgressText(p + k + 1)
    decreases MaxPolls - p
  {
    if k > 0 {
      PollProgressNumbered(script, p + 1, k - 1);
    }
  }

  /** A successful run returns the completed response with `resultUrl` set to the
      extracted, non-empty URL and every other field as the service sent it. */
  lemma PollSuccessValue(script: seq<HttpReply<JobData>>, p: nat)
    requires p <= MaxPolls <= |script|
    requires PollFrom(script, p).end.Resolved?
    ensures exists i | p <= i < MaxPolls ::
      (script[i].Succeeded() &&
       var sent := script[i].body;
       sent.status == "completed" && ResultUrl(sent.result).Some? &&
       PollFrom(script, p).end.data == sent.(resultUrl := ResultUrl(sent.result)))
    decreases MaxPolls - p
  {
    if TickEnd(script[p]).None? {
      PollSuccessValue(script, p + 1);
    }
  }
}
