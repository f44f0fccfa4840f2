/** `updateStatus` (script.js:198-212) as a transition of the generate button's
    `(disabled, textContent)` pair. */
module StatusButton {
  import opened Wrappers
  import opened Text

  datatype ButtonState = ButtonState(disabled: bool, caption: string)

  /** Texts that announce work in flight: they disable the button. */
  predicate IsBusy(text: string)
  {
    Contains(text, "PROCESSING") || Contains(text, "UPLOADING") || Contains(text, "SUBMITTING")
  }

  /** The button after `updateStatus(text)`. */
  function AfterStatus(b: ButtonState, text: string): (r: ButtonState)
    ensures r.disabled <==> IsBusy(text) || (b.disabled && text != "READY" && text != "COMPLETE")
  {
    if IsBusy(text) then ButtonState(true, text)
    else if text == "READY" || text == "COMPLETE" then
      ButtonState(false, if text == "COMPLETE" then "GENERATE AGAIN" else "APPLY EFFECT")
    else b.(caption := text)
  }

  /** The button after a series of `updateStatus` calls, in order. */
  function AfterStatuses(b: ButtonState, texts: seq<string>): ButtonState
  {
    if texts == [] then b
    else AfterStatus(AfterStatuses(b, texts[..|texts| - 1]), texts[|texts| - 1])
  }

  /** The same, for a page that may lack the button (then nothing happens). */
  function AfterStatusesIfPresent(b: Option<ButtonState>, texts: seq<string>): Option<ButtonState>
  {
    match b
    case None => None
    case Some(s) => Some(AfterStatuses(s, texts))
  }

  /** One `updateStatus` call on a page that may lack the button. */
  function AfterStatusIfPresent(b: Option<ButtonState>, text: string): Option<ButtonState>
  {
    match b
    case None => None
    case Some(s) => Some(AfterStatus(s, text))
  }

  lemma AfterStatusesSnoc(b: Option<ButtonState>, texts: seq<string>, text: string)
    ensures AfterStatusesIfPresent(b, texts + [text]) ==
            AfterStatusIfPresent(AfterStatusesIfPresent(b, texts), text)
  {
    assert (texts + [text])[..|texts|] == texts;
  }

  /** A series of statuses acts as its first part followed by its second. */
  lemma {:induction false} AfterStatusesAppend(b: Option<ButtonState>, xs: seq<string>, ys: seq<string>)
    ensures AfterStatusesIfPresent(b, xs + ys) ==
            AfterStatusesIfPresent(AfterStatusesIfPresent(b, xs), ys)
    decreases |ys|
  {
    if ys == [] {
      assert xs + ys == xs;
      if b.Some? {
        assert AfterStatuses(AfterStatuses(b.value, xs), []) == AfterStatuses(b.value, xs);
      }
    } else {
      var ys' := ys[..|ys| - 1];
      var y := ys[|ys| - 1];
      AfterStatusesAppend(b, xs, ys');
      assert xs + ys == (xs + ys') + [y];
      assert ys == ys' + [y];
      AfterStatusesSnoc(b, xs + ys', y);
      AfterStatusesSnoc(AfterStatusesIfPresent(b, xs), ys', y);
    }
  }

  /** A busy text disables the button and shows the text itself. */
  lemma BusyTextDisables(b: ButtonState, text: string)
    requires IsBusy(text)
    ensures AfterStatus(b, text) == ButtonState(true, text)
  {
  }

  /** `READY` enables the button under the caption `APPLY EFFECT`. */
  lemma ReadyEnables(b: ButtonState)
    ensures AfterStatus(b, "READY") == ButtonState(false, "APPLY EFFECT")
  {
    NotBusyWithout("READY", 0, 0, 0);
  }

  /** `COMPLETE` enables the button under the caption `GENERATE AGAIN`. */
  lemma CompleteEnables(b: ButtonState)
    ensures AfterStatus(b, "COMPLETE") == ButtonState(false, "GENERATE AGAIN")
  {
    NotBusyWithout("COMPLETE", 1, 0, 0);
  }

  /** `QUEUED...` changes only the caption; `disabled` stays as it was. */
  lemma QueuedKeepsDisabled(b: ButtonState)
    ensures AfterStatus(b, "QUEUED...") == b.(caption := "QUEUED...")
  {
    QueuedNotBusy();
    assert |"QUEUED..."| == 9;
  }

  /** `QUEUED...` contains none of the busy markers. */
  lemma QueuedNotBusy()
    ensures !IsBusy("QUEUED...")
  {
    NotBusyWithout("QUEUED...", 0, 2, 0);
  }

  /** `ERROR` changes only the caption; `disabled` stays as it was. */
  lemma ErrorKeepsDisabled(b: ButtonState)
    ensures AfterStatus(b, "ERROR") == b.(caption := "ERROR")
  {
    NotBusyWithout("ERROR", 0, 0, 0);
  }

  /** The texts shown while uploading and submitting are busy texts. */
  lemma UploadingAndSubmittingAreBusy()
    ensures IsBusy("UPLOADING...") && IsBusy("SUBMITTING...")
  {
    ContainsAt("UPLOADING...", "UPLOADING", 0);
    ContainsAt("SUBMITTING...", "SUBMITTING", 0);
  }

  /** A text lacking one character of each busy marker is not busy; `i`, `j`
      and `k` point at such a character in each marker. */
  lemma NotBusyWithout(text: string, i: nat, j: nat, k: nat)
    requires i < |"PROCESSING"| && "PROCESSING"[i] !in text
    requires j < |"UPLOADING"| && "UPLOADING"[j] !in text
    requires k < |"SUBMITTING"| && "SUBMITTING"[k] !in text
    ensures !IsBusy(text)
  {
    if Contains(text, "PROCESSING") { ContainsOnlyOwnChars(text, "PROCESSING", "PROCESSING"[i]); }
    if Contains(text, "UPLOADING") { ContainsOnlyOwnChars(text, "UPLOADING", "UPLOADING"[j]); }
    if Contains(text, "SUBMITTING") { ContainsOnlyOwnChars(text, "SUBMITTING", "SUBMITTING"[k]); }
  }

  /** Repeating the same status changes nothing more. */
  lemma AfterStatusIdempotent(b: ButtonState, text: string)
    ensures AfterStatus(AfterStatus(b, text), text) == AfterStatus(b, text)
  {
  }

  /** Once a busy text has disabled the button, it stays disabled until a `READY`
      or `COMPLETE` arrives, whatever else is shown in between. */
  lemma {:induction false} StaysDisabledUntilIdle(b: ButtonState, texts: seq<string>)
    requires texts != [] && IsBusy(texts[0])
    requires forall k | 0 <= k < |texts| :: texts[k] != "READY" && texts[k] != "COMPLETE"
    ensures AfterStatuses(b, texts).disabled
  {
    if |texts| > 1 {
      StaysDisabledUntilIdle(b, texts[..|texts| - 1]);
    }
  }

  /** The caption shown is the one set by the last status. */
  lemma LastStatusDecidesLabel(b: ButtonState, texts: seq<string>)
    requires texts != []
    ensures AfterStatuses(b, texts).caption ==
      var t := texts[|texts| - 1];
      if IsBusy(t) || (t != "READY" && t != "COMPLETE") then t
      else if t == "COMPLETE" then "GENERATE AGAIN" else "APPLY EFFECT"
  {
  }
}
