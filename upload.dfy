/** `uploadFile` (script.js:47-83): names the stored object after a fresh token and
    the original extension, obtains a signed URL, PUTs the file, and returns the
    public URL of the stored object. */
module Upload {
  import opened Wrappers
  import opened Text
  import opened Web
  import NanoId

  /** The selected file, as far as the upload reads it. */
  datatype File = File(name: string, mediaType: string)

  const ContentBase := "https://contents.maxstudio.ai/"
  const DefaultExtension := "jpg"

  /** `file.name.split('.').pop() || 'jpg'`: the text after the last dot, or the
      whole name when it has no dot; `jpg` only when that text is empty. */
  function FileExtension(name: string): (ext: string)
    ensures ext != "" && '.' !in ext
    ensures ext == DefaultExtension || (|ext| <= |name| && name[|name| - |ext|..] == ext)
  {
    var last := Last(Split(name, '.'));
    if last == "" then DefaultExtension
    else
      JoinSplit(name, '.');
      LastPieceIsSuffix(Split(name, '.'), '.');
      last
  }

  /** The last piece of a join is a suffix of it, preceded by the separator when
      there is more than one piece. */
  lemma LastPieceIsSuffix(parts: seq<string>, sep: char)
    requires |parts| >= 1
    ensures var j := Join(parts, sep);
            |Last(parts)| <= |j| && j[|j| - |Last(parts)|..] == Last(parts)
    ensures var j := Join(parts, sep);
            |parts| > 1 ==> |Last(parts)| < |j| && j[|j| - |Last(parts)| - 1] == sep
  {
  }

  /** `uniqueId + '.' + fileExtension`. */
  function StorageFileName(id: string, name: string): (fileName: string)
    ensures |fileName| >= |id| + 2 && fileName[..|id|] == id && fileName[|id|] == '.'
  {
    id + "." + FileExtension(name)
  }

  /** `'https://contents.maxstudio.ai/' + fileName`. */
  function PublicUrl(fileName: string): (url: string)
    ensures StartsWith(url, ContentBase) && url[|ContentBase|..] == fileName
  {
    ContentBase + fileName
  }

  /** A name ending in `.ext` keeps `ext` as its extension. */
  lemma ExtensionOfDottedName(stem: string, ext: string)
    requires ext != "" && '.' !in ext
    ensures FileExtension(stem + "." + ext) == ext
  {
    var name := stem + "." + ext;
    var prefix := stem + ".";
    assert prefix + ext == name;
    assert prefix[..|prefix| - 1] == stem;
    SplitAppendPlain(prefix, ext, '.');
    assert Last(Split(name, '.')) == "" + ext;
  }

  /** A name without a dot is its own extension (unless it is empty). */
  lemma ExtensionOfUndottedName(name: string)
    requires name != "" && '.' !in name
    ensures FileExtension(name) == name
  {
    SplitAppendPlain("", name, '.');
    assert "" + name == name;
  }

  /** An empty name, or one ending in a dot, falls back to `jpg`. */
  lemma ExtensionDefaults(name: string)
    requires name == "" || name[|name| - 1] == '.'
    ensures FileExtension(name) == DefaultExtension
  {
  }

  /** The storage name splits at its dot into the token and the extension, so the
      token and the extension can be read back from the public URL. */
  lemma StorageNameSplits(id: string, name: string)
    requires '.' !in id
    ensures Split(StorageFileName(id, name), '.') == [id, FileExtension(name)]
    ensures PublicUrl(StorageFileName(id, name))[|ContentBase|..] == StorageFileName(id, name)
  {
    var parts := [id, FileExtension(name)];
    assert Join(parts, '.') == StorageFileName(id, name) by {
      assert parts[..1] == [id];
    }
    SplitJoin(parts, '.');
  }

  /** A generated token never contains a dot. */
  lemma TokenHasNoDot(draws: seq<NanoId.Draw>)
    ensures '.' !in NanoId.Spell(draws)
  {
    if '.' in NanoId.Spell(draws) {
      var i :| 0 <= i < |draws| && NanoId.Spell(draws)[i] == '.';
      NanoId.SpellIsAlphanumeric(draws, i);
    }
  }

  /** What one call of `uploadFile` returns or throws, and the requests it makes. */
  datatype UploadRun = UploadRun(result: Result<string>, sent: seq<Effect>)

  /** `uploadFile(file)` once the token `id` has been generated: GET a signed URL
      for the storage name, PUT the file there, and return the public URL. */
  function UploadFile(file: File, id: string, signed: HttpReply<string>, put: HttpReply<()>): (run: UploadRun)
    ensures run.result.Success? <==> signed.Succeeded() && put.Succeeded()
    ensures run.result.Success? ==> run.result.value == PublicUrl(StorageFileName(id, file.name))
    ensures |run.sent| >= 1 && run.sent[0] == GetUploadUrl(StorageFileName(id, file.name))
    ensures |run.sent| == if signed.Succeeded() then 2 else 1
    ensures signed.Succeeded() ==> run.sent[1] == PutFile(signed.body, file.mediaType)
  {
    var fileName := StorageFileName(id, file.name);
    var ask := [GetUploadUrl(fileName)];
    match signed
    case Rejected(reason) => UploadRun(Failure(reason), ask)
    case Answered(ok, statusText, signedUrl) =>
      if !ok then UploadRun(Failure("Failed to get signed URL: " + statusText), ask)
      else
        var sent := ask + [PutFile(signedUrl, file.mediaType)];
        match put
        case Rejected(reason) => UploadRun(Failure(reason), sent)
        case Answered(ok', statusText', _) =>
          if !ok' then UploadRun(Failure("Failed to upload file: " + statusText'), sent)
          else UploadRun(Success(PublicUrl(fileName)), sent)
  }

  /** A refused step throws with the step named and the response's status text. */
  lemma UploadErrors(file: File, id: string, signed: HttpReply<string>, put: HttpReply<()>)
    ensures signed.Answered? && !signed.ok ==>
      UploadFile(file, id, signed, put).result == Failure("Failed to get signed URL: " + signed.statusText)
    ensures signed.Succeeded() && put.Answered? && !put.ok ==>
      UploadFile(file, id, signed, put).result == Failure("Failed to upload file: " + put.statusText)
  {
  }

  /** The returned URL does not depend on the signed URL or on the PUT response. */
  lemma UploadUrlIndependentOfResponses(file: File, id: string,
                                        signed1: HttpReply<string>, put1: HttpReply<()>,
                                        signed2: HttpReply<string>, put2: HttpReply<()>)
    requires UploadFile(file, id, signed1, put1).result.Success?
    requires UploadFile(file, id, signed2, put2).result.Success?
    ensures UploadFile(file, id, signed1, put1).result == UploadFile(file, id, signed2, put2).result
  {
  }
}
