/**
 * `generate_and_save_image`: which file path, if any, the image stage hands
 * back. The image provider's output, the download, the file write and the
 * `convert` run are external; each is given as its outcome.
 */
module ImageStage {
  import opened Wrappers

  /** What `replicate.run` returned, or that it raised. */
  datatype ProviderOutput =
    | ListOutput(items: seq<string>)
    | TextOutput(url: string)
    | OtherOutput
    | ProviderRaised

  /** `requests.get(url)` followed by `raise_for_status()`. */
  datatype DownloadOutcome = Fetched | BadStatus(status: int) | RequestFailed

  /** Writing the downloaded bytes to the `.webp` file. */
  datatype WriteOutcome = Written | WriteFailed

  /** `subprocess.run(["convert", ...], check=True)`. */
  datatype ConvertOutcome = Converted | ExitedNonZero(code: int) | ToolMissing

  const PngPath: string := "digest_illustration.png"
  const WebpPath: string := "digest_illustration_original.webp"

  /** The image URL taken from the provider's output. */
  function ImageUrl(output: ProviderOutput): (u: Option<string>)
    ensures u.Some? <==> (output.ListOutput? && |output.items| > 0) || output.TextOutput?
  {
    match output
    case ListOutput(items) => if |items| > 0 then Some(items[0]) else None
    case TextOutput(url) => Some(url)
    case _ => None
  }

  /** The path returned, and the URL that was downloaded, if one was. */
  datatype ImageRun = ImageRun(path: Option<string>, downloaded: Option<string>)

  function GenerateAndSaveImage(
    output: ProviderOutput, download: string -> DownloadOutcome,
    write: WriteOutcome, convert: ConvertOutcome): (r: ImageRun)
    ensures r.downloaded == ImageUrl(output)
    ensures r.path.Some? ==> r.path.value == PngPath || r.path.value == WebpPath
  {
    match ImageUrl(output)
    case None => ImageRun(None, None)
    case Some(url) =>
      var path :=
        if download(url) != Fetched || write == WriteFailed then None
        else match convert
          case Converted => Some(PngPath)
          case ExitedNonZero(_) => Some(WebpPath)
          case ToolMissing => None;
      ImageRun(path, Some(url))
  }

  /** The saved image was downloaded from the output's URL and written. */
  predicate Saved(output: ProviderOutput, download: string -> DownloadOutcome, write: WriteOutcome) {
    ImageUrl(output).Some? && download(ImageUrl(output).value) == Fetched && write == Written
  }

  /** The `.png` path comes back exactly when the image was saved and converted. */
  lemma PngExactly(output: ProviderOutput, download: string -> DownloadOutcome, write: WriteOutcome, convert: ConvertOutcome)
    ensures GenerateAndSaveImage(output, download, write, convert).path == Some(PngPath)
      <==> Saved(output, download, write) && convert == Converted
  {
  }

  /** The `.webp` path comes back exactly when the image was saved and `convert` failed with an exit status. */
  lemma WebpExactly(output: ProviderOutput, download: string -> DownloadOutcome, write: WriteOutcome, convert: ConvertOutcome)
    ensures GenerateAndSaveImage(output, download, write, convert).path == Some(WebpPath)
      <==> Saved(output, download, write) && convert.ExitedNonZero?
  {
  }

  /**
   * `None` comes back when there is no URL, when the download or the write
   * fails, and when the `convert` executable cannot be started.
   */
  lemma NoneExactly(output: ProviderOutput, download: string -> DownloadOutcome, write: WriteOutcome, convert: ConvertOutcome)
    ensures GenerateAndSaveImage(output, download, write, convert).path.None?
      <==> !Saved(output, download, write) || convert == ToolMissing
  {
  }

  /** A list is read through its first element, so it acts as that element alone. */
  lemma ListActsAsFirst(u: string, rest: seq<string>, download: string -> DownloadOutcome, write: WriteOutcome, convert: ConvertOutcome)
    ensures GenerateAndSaveImage(ListOutput([u] + rest), download, write, convert)
      == GenerateAndSaveImage(TextOutput(u), download, write, convert)
  {
  }
}
