/**
 * `main`: collect the period's messages, ask for the digest, tidy its line
 * breaks, ask for an illustration prompt, produce the image, and deliver
 * the digest to the account's own chat. Every external effect is an input:
 * the channel history, the text service, the image provider, the download,
 * the file write, the `convert` run, and whether each send raises.
 */
module Pipeline {
  import opened Wrappers
  import opened Text
  import opened Calendar
  import opened DateLabel
  import opened LineBreaks
  import opened TextClient
  import opened Composer
  import opened ImageStage
  import opened Collection

  /** A call to `send_file` or `send_message` for the chat 'me'. */
  datatype Delivery =
    | SendFile(path: string, text: string)
    | SendMessage(text: string)

  /** How `main` ends. */
  datatype Status =
    | NoMessages          // returns before asking for a digest
    | DigestFailed        // "Failed to create digest"
    | ImagePromptRaised   // `generate_image_prompt` raises and `main` with it
    | Delivered
    | SendMessageRaised   // the text-only `send_message` raises and `main` with it

  /** Everything one run produces that the model follows. */
  datatype Run = Run(
    status: Status,
    digest: Option<string>,      // what `create_digest` returned, when it was called
    imagePath: Option<string>,   // what `generate_and_save_image` returned, when it was called
    deliveries: seq<Delivery>,
    attempts: nat)               // attempts made on the text service

  /**
   * The sends a run issues once it has a digest and knows the image path:
   * one or two, all with the same text; `send_file` first exactly when there
   * is an image, and a second send exactly when `send_file` raised.
   */
  function Deliveries(digest: string, imagePath: Option<string>, sendFileRaises: bool): (d: seq<Delivery>)
    ensures 1 <= |d| <= 2
    ensures forall i :: 0 <= i < |d| ==> d[i].text == digest
    ensures d[0].SendFile? <==> imagePath.Some?
    ensures d[0].SendFile? ==> d[0].path == imagePath.value
    ensures |d| == 2 <==> imagePath.Some? && sendFileRaises
    ensures d[|d| - 1].SendMessage? <==> imagePath.None? || sendFileRaises
  {
    if imagePath.Some? then
      [SendFile(imagePath.value, digest)] + (if sendFileRaises then [SendMessage(digest)] else [])
    else [SendMessage(digest)]
  }

  /** The records kept for the window from midnight of `first` to the last microsecond of `last`. */
  function KeptRecords(records: seq<Record>, first: Date, last: Date): seq<Record> {
    Selected(records, Moment(first, Midnight), Moment(last, EndOfDay))
  }

  /**
   * How the outcome of a run that asked for a digest hangs together: nothing
   * is delivered when the digest is false or the illustration prompt raised;
   * otherwise the deliveries are those of the tidied digest and the image
   * path, and the run fails at the end exactly when its last send is a
   * `send_message` that raises.
   */
  predicate Consistent(run: Run, sendFileRaises: bool, sendMessageRaises: bool) {
    && (run.status == DigestFailed <==> run.digest.None? || run.digest.value == [])
    && (run.deliveries == [] <==> run.status in {DigestFailed, ImagePromptRaised})
    && (run.deliveries != [] ==>
          run.digest.Some? && run.deliveries == Deliveries(RemoveExtraLineBreaks(run.digest.value), run.imagePath, sendFileRaises))
    && (run.status == SendMessageRaised <==>
          run.deliveries != [] && run.deliveries[|run.deliveries| - 1].SendMessage? && sendMessageRaises)
    && (run.imagePath.Some? ==> run.imagePath.value == PngPath || run.imagePath.value == WebpPath)
    && 1 <= run.attempts <= 4
  }

  /** `if digest_markdown:` */
  predicate Truthy(result: Option<string>) {
    result.Some? && result.value != []
  }

  /** The illustration request made with the tidied digest. */
  function IllustrationCall(digest: string, service: (Prompt, nat) -> Attempt): CallOutcome {
    ApiCall(AttemptsFor(service, IllustrationRequest(digest)), true, 0)
  }

  /**
   * How each stage's result feeds the next, given the outcome `dc` of the
   * digest request: a true digest is tidied and sent to the illustration
   * request; the stripped prompt goes to the image stage, whose path picks the
   * sends; the attempts are those of the digest request plus, when it was made,
   * those of the illustration request.
   */
  predicate Follows(
    run: Run, dc: CallOutcome,
    service: (Prompt, nat) -> Attempt, imageProvider: string -> ProviderOutput,
    download: string -> DownloadOutcome, write: WriteOutcome, convert: ConvertOutcome)
  {
    && run.digest == dc.result
    && (!Truthy(dc.result) ==> run.attempts == dc.attempts && run.imagePath.None?)
    && (Truthy(dc.result) ==>
          var ip := IllustrationCall(RemoveExtraLineBreaks(dc.result.value), service);
          && run.attempts == dc.attempts + ip.attempts
          && (run.status == ImagePromptRaised <==> ip.result.None?)
          && (ip.result.None? ==> run.imagePath.None?)
          && (ip.result.Some? ==>
                run.imagePath == GenerateAndSaveImage(imageProvider(Strip(ip.result.value)), download, write, convert).path))
  }

  /**
   * Given what every external effect does, the outcome of a run that asked
   * for a digest is fixed: two runs that both follow the same stages and hang
   * together are the same run.
   */
  lemma OutcomeDetermined(
    r1: Run, r2: Run, dc: CallOutcome,
    service: (Prompt, nat) -> Attempt, imageProvider: string -> ProviderOutput,
    download: string -> DownloadOutcome, write: WriteOutcome, convert: ConvertOutcome,
    sendFileRaises: bool, sendMessageRaises: bool)
    requires r1.status != NoMessages && r2.status != NoMessages
    requires Follows(r1, dc, service, imageProvider, download, write, convert)
    requires Follows(r2, dc, service, imageProvider, download, write, convert)
    requires Consistent(r1, sendFileRaises, sendMessageRaises)
    requires Consistent(r2, sendFileRaises, sendMessageRaises)
    ensures r1 == r2
  {
  }

  /** The text of the digest request for the joined messages. */
  function DigestCall(combined: string, first: Date, last: Date, service: (Prompt, nat) -> Attempt): CallOutcome {
    ApiCall(AttemptsFor(service, DigestRequest(FormatDateRange(first, last), combined)), true, 0)
  }

  /** `main` from the joined messages on. */
  method Summarise(
    combined: string, first: Date, last: Date,
    service: (Prompt, nat) -> Attempt, imageProvider: string -> ProviderOutput,
    download: string -> DownloadOutcome, write: WriteOutcome, convert: ConvertOutcome,
    sendFileRaises: bool, sendMessageRaises: bool)
    returns (run: Run)
    requires combined != []
    ensures run.status != NoMessages
    ensures Follows(run, DigestCall(combined, first, last, service), service, imageProvider, download, write, convert)
    ensures Consistent(run, sendFileRaises, sendMessageRaises)
  {
    var c := CreateDigest(combined, first, last, service);
    if c.result.None? || c.result.value == [] {
      run := Run(DigestFailed, c.result, None, [], c.attempts);
      DigestFailedRun(run, c, service, imageProvider, download, write, convert, sendFileRaises, sendMessageRaises);
      return;
    }
    run := IllustrateAndSend(c, service, imageProvider, download, write, convert, sendFileRaises, sendMessageRaises);
  }

  /**
   * `main` once the digest is true: tidy it, ask for the illustration prompt,
   * produce the image from the stripped prompt, and send.
   */
  method IllustrateAndSend(
    dc: CallOutcome,
    service: (Prompt, nat) -> Attempt, imageProvider: string -> ProviderOutput,
    download: string -> DownloadOutcome, write: WriteOutcome, convert: ConvertOutcome,
    sendFileRaises: bool, sendMessageRaises: bool)
    returns (run: Run)
    requires Truthy(dc.result) && 1 <= dc.attempts <= 2
    ensures run.status != NoMessages
    ensures Follows(run, dc, service, imageProvider, download, write, convert)
    ensures Consistent(run, sendFileRaises, sendMessageRaises)
  {
    var digest := RemoveExtraLineBreaks(dc.result.value);
    var prompt, c2 := GenerateImagePrompt(digest, service);
    if prompt.Failure? {
      run := Run(ImagePromptRaised, dc.result, None, [], dc.attempts + c2.attempts);
      PromptRaisedRun(run, dc, service, imageProvider, download, write, convert, sendFileRaises, sendMessageRaises);
      return;
    }
    var image := GenerateAndSaveImage(imageProvider(prompt.value), download, write, convert);
    var deliveries := Deliveries(digest, image.path, sendFileRaises);
    var status := if deliveries[|deliveries| - 1].SendMessage? && sendMessageRaises then SendMessageRaised else Delivered;
    run := Run(status, dc.result, image.path, deliveries, dc.attempts + c2.attempts);
    DeliveredRun(run, dc, service, imageProvider, download, write, convert, sendFileRaises, sendMessageRaises);
  }

  /** The run that stops at a false digest. */
  lemma DigestFailedRun(
    run: Run, dc: CallOutcome,
    service: (Prompt, nat) -> Attempt, imageProvider: string -> ProviderOutput,
    download: string -> DownloadOutcome, write: WriteOutcome, convert: ConvertOutcome,
    sendFileRaises: bool, sendMessageRaises: bool)
    requires !Truthy(dc.result) && run == Run(DigestFailed, dc.result, None, [], dc.attempts)
    requires 1 <= dc.attempts <= 2
    ensures Follows(run, dc, service, imageProvider, download, write, convert)
    ensures Consistent(run, sendFileRaises, sendMessageRaises)
  {
  }

  /** The run that stops when the illustration prompt raises. */
  lemma PromptRaisedRun(
    run: Run, dc: CallOutcome,
    service: (Prompt, nat) -> Attempt, imageProvider: string -> ProviderOutput,
    download: string -> DownloadOutcome, write: WriteOutcome, convert: ConvertOutcome,
    sendFileRaises: bool, sendMessageRaises: bool)
    requires Truthy(dc.result) && 1 <= dc.attempts <= 2
    requires IllustrationCall(RemoveExtraLineBreaks(dc.result.value), service).result.None?
    requires run == Run(ImagePromptRaised, dc.result, None, [],
      dc.attempts + IllustrationCall(RemoveExtraLineBreaks(dc.result.value), service).attempts)
    ensures Follows(run, dc, service, imageProvider, download, write, convert)
    ensures Consistent(run, sendFileRaises, sendMessageRaises)
  {
  }

  /** The run that reaches the sends. */
  lemma DeliveredRun(
    run: Run, dc: CallOutcome,
    service: (Prompt, nat) -> Attempt, imageProvider: string -> ProviderOutput,
    download: string -> DownloadOutcome, write: WriteOutcome, convert: ConvertOutcome,
    sendFileRaises: bool, sendMessageRaises: bool)
    requires Truthy(dc.result) && 1 <= dc.attempts <= 2
    requires IllustrationCall(RemoveExtraLineBreaks(dc.result.value), service).result.Some?
    requires
      var ip := IllustrationCall(RemoveExtraLineBreaks(dc.result.value), service);
      var path := GenerateAndSaveImage(imageProvider(Strip(ip.result.value)), download, write, convert).path;
      var d := Deliveries(RemoveExtraLineBreaks(dc.result.value), path, sendFileRaises);
      run == Run(if d[|d| - 1].SendMessage? && sendMessageRaises then SendMessageRaised else Delivered,
                 dc.result, path, d, dc.attempts + ip.attempts)
    ensures Follows(run, dc, service, imageProvider, download, write, convert)
    ensures Consistent(run, sendFileRaises, sendMessageRaises)
  {
  }

  /** The joined entries of the kept records, oldest first. */
  function Combined(records: seq<Record>, first: Date, last: Date, username: string, fmt: Moment -> string): string {
    Join(Reversed(Entries(fmt, username, KeptRecords(records, first, last))), "\n\n")
  }

  /**
   * A run returns early, having delivered nothing and asked nothing, exactly
   * when no record is kept; otherwise it asks for the digest of the joined
   * entries, never the fixed text for no messages.
   */
  method RunDigest(
    records: seq<Record>, first: Date, last: Date, username: string, fmt: Moment -> string,
    service: (Prompt, nat) -> Attempt, imageProvider: string -> ProviderOutput,
    download: string -> DownloadOutcome, write: WriteOutcome, convert: ConvertOutcome,
    sendFileRaises: bool, sendMessageRaises: bool)
    returns (run: Run)
    ensures run.status == NoMessages <==> KeptRecords(records, first, last) == []
    ensures run.status == NoMessages ==> run == Run(NoMessages, None, None, [], 0)
    ensures run.status != NoMessages ==>
      && Combined(records, first, last, username, fmt) != []
      && Follows(run, DigestCall(Combined(records, first, last, username, fmt), first, last, service),
                 service, imageProvider, download, write, convert)
      && Consistent(run, sendFileRaises, sendMessageRaises)
  {
    var messages, count := CollectMessages(records, Moment(first, Midnight), Moment(last, EndOfDay), username, fmt);
    if messages == [] {
      return Run(NoMessages, None, None, [], 0);
    }
    var combined := Join(messages, "\n\n");
    EntriesNotEmpty(fmt, username, messages, KeptRecords(records, first, last));
    JoinStartsWithFirst(messages, "\n\n");
    run := Summarise(combined, first, last, service, imageProvider, download, write, convert, sendFileRaises, sendMessageRaises);
  }

  /** Every entry is non-empty, so the joined messages are too and the digest is always requested. */
  lemma EntriesNotEmpty(fmt: Moment -> string, username: string, messages: seq<string>, kept: seq<Record>)
    requires messages == Reversed(Entries(fmt, username, kept))
    requires messages != []
    ensures messages[0] != []
  {
    var r := kept[|kept| - 1];
    assert messages[0] == Entry(fmt, username, r);
    assert |Entry(fmt, username, r)| >= 3;
  }
}
