/** The download button's fallback chain (script.js:421-481): a direct fetch saved
    as a file, else a canvas re-encoding of the shown image, else a new tab. */
module Download {
  import opened Web
  import NanoId

  /** What `document.getElementById('result-final')` yields when strategy 1 fails. */
  datatype ImageProbe = NoImage | Image(complete: bool, naturalWidth: int)

  datatype Strategy = DirectSave | CanvasSave | NewTab

  const ShortIdLength := 6
  const FallbackFileName := "mugshot_result_fallback.png"

  /** `'mugshot_result_' + generateNanoId(6) + '.jpg'`. */
  function DirectFileName(id: string): (name: string)
    ensures |name| == |id| + 19 && name[15..|name| - 4] == id
    ensures name != FallbackFileName
  {
    var name := "mugshot_result_" + id + ".jpg";
    assert name[|name| - 3] == 'j' && FallbackFileName[|FallbackFileName| - 3] == 'p';
    name
  }

  /** `img && img.complete && img.naturalWidth > 0`. */
  predicate CanvasUsable(img: ImageProbe)
    ensures CanvasUsable(img) ==> img.Image? && img.naturalWidth >= 1
  {
    img.Image? && img.complete && img.naturalWidth > 0
  }

  /** Which strategy ends up saving or opening the result: strategy 1 when its
      fetch succeeds; the canvas when the image is usable and drawing it does not
      throw; the new tab otherwise. */
  function ChooseStrategy(fetched: HttpReply<()>, img: ImageProbe, canvasThrows: bool): (s: Strategy)
    ensures s == DirectSave <==> fetched.Succeeded()
    ensures s == CanvasSave <==> !fetched.Succeeded() && CanvasUsable(img) && !canvasThrows
  {
    if fetched.Succeeded() then DirectSave
    else if CanvasUsable(img) && !canvasThrows then CanvasSave
    else NewTab
  }

  /** What a click on the download button with `url` set does, in order. */
  function DownloadEffects(url: string, s: Strategy, id: string): (es: seq<Effect>)
    ensures |es| == 2 && es[0] == FetchResult(url)
  {
    [FetchResult(url)] +
      match s
      case DirectSave => [SaveAs(DirectFileName(id))]
      case CanvasSave => [SaveAs(FallbackFileName)]
      case NewTab => [OpenTab(url)]
  }

  /** When strategy 1 works, neither the canvas nor a new tab is used. */
  lemma DirectSuccessSkipsFallbacks(url: string, fetched: HttpReply<()>, img: ImageProbe,
                                    canvasThrows: bool, id: string)
    requires fetched.Succeeded()
    ensures var es := DownloadEffects(url, ChooseStrategy(fetched, img, canvasThrows), id);
            es == [FetchResult(url), SaveAs(DirectFileName(id))] &&
            OpenTab(url) !in es && SaveAs(FallbackFileName) !in es
  {
  }

  /** When strategy 1 fails and no loaded image with a width exists, the canvas is
      skipped and the URL is opened in a new tab exactly once. */
  lemma NoImageOpensTabOnce(url: string, fetched: HttpReply<()>, img: ImageProbe,
                            canvasThrows: bool, id: string)
    requires !fetched.Succeeded() && !CanvasUsable(img)
    ensures DownloadEffects(url, ChooseStrategy(fetched, img, canvasThrows), id) ==
            [FetchResult(url), OpenTab(url)]
  {
  }

  /** A canvas that throws also ends in a new tab. */
  lemma CanvasFailureOpensTab(url: string, fetched: HttpReply<()>, img: ImageProbe, id: string)
    requires !fetched.Succeeded() && CanvasUsable(img)
    ensures DownloadEffects(url, ChooseStrategy(fetched, img, true), id) == [FetchResult(url), OpenTab(url)]
    ensures DownloadEffects(url, ChooseStrategy(fetched, img, false), id) == [FetchResult(url), SaveAs(FallbackFileName)]
  {
  }

  /** The direct file name embeds the 6-character token between a fixed prefix
      and the `.jpg` suffix. */
  lemma DirectFileNameShape(draws: seq<NanoId.Draw>)
    requires |draws| == ShortIdLength
    ensures var name := DirectFileName(NanoId.Spell(draws));
            |name| == 25 && name[..15] == "mugshot_result_" && name[15..21] == NanoId.Spell(draws) &&
            name[21..] == ".jpg"
  {
  }
}
