/** The boundary between the page and the outside world. Every network response
    is an input value; everything the page sends or triggers is an `Effect`. */
module Web {

  /** What an awaited `fetch` yields: either it rejects (network failure, with the
      thrown error's message) or a response arrives with its `ok` flag, its
      `statusText` and its parsed body. */
  datatype HttpReply<T> =
    | Rejected(reason: string)
    | Answered(ok: bool, statusText: string, body: T)
  {
    predicate Succeeded()
    {
      Answered? && ok
    }
  }

  /** The JSON body posted to the job-creation endpoint (script.js:99-107). */
  datatype JobRequest = JobRequest(
    model: string,
    toolType: string,
    effectId: string,
    imageUrl: string,
    userId: string,
    removeWatermark: bool,
    isPrivate: bool)

  /** An observable action of the page, in the order it happens. */
  datatype Effect =
    | GetUploadUrl(fileName: string)            // GET get-emd-upload-url?fileName=...
    | PutFile(signedUrl: string, contentType: string)
    | PostJob(request: JobRequest)              // POST image-gen
    | GetJobStatus(userId: string, jobId: string)
    | FetchResult(url: string)                  // download strategy 1
    | SaveAs(fileName: string)                  // a download link is clicked
    | OpenTab(url: string)                      // window.open(url, '_blank')
    | Alert(message: string)

  /** `n` copies of the same effect. */
  function Repeat(e: Effect, n: nat): (es: seq<Effect>)
    ensures |es| == n && forall i | 0 <= i < n :: es[i] == e
  {
    if n == 0 then [] else Repeat(e, n - 1) + [e]
  }
}
