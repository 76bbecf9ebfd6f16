/**
 * `create_digest` and `generate_image_prompt`: the two requests made to the
 * text-generation service. The wording of the prompts is not modelled; a
 * prompt records what the script puts into it. The service is a function
 * from the prompt and the attempt number to the outcome of that attempt.
 */
module Composer {
  import opened Wrappers
  import opened Text
  import opened Calendar
  import opened DateLabel
  import opened TextClient

  datatype Prompt =
    | DigestRequest(dateRange: string, messages: string)
    | IllustrationRequest(digest: string)

  /** The text `create_digest` returns, without a request, when it has no messages. */
  const NoMessagesText: string := "No messages were found to create a digest."

  /** The attempts of one call with a fixed prompt. */
  function AttemptsFor(service: (Prompt, nat) -> Attempt, prompt: Prompt): nat -> Attempt {
    (i: nat) => service(prompt, i)
  }

  /**
   * Empty messages give the fixed text and no request; otherwise the result
   * of the call is returned as it is, `None` included, and the prompt names
   * the period with its label.
   */
  method CreateDigest(messages: string, start: Date, end: Date, service: (Prompt, nat) -> Attempt)
    returns (c: CallOutcome)
    ensures messages == [] ==> c == CallOutcome(Some(NoMessagesText), 0, 0)
    ensures messages != [] ==>
      c == ApiCall(AttemptsFor(service, DigestRequest(FormatDateRange(start, end), messages)), true, 0)
  {
    if messages == [] {
      return CallOutcome(Some(NoMessagesText), 0, 0);
    }
    var dateRange := FormatDateRange(start, end);
    var result, attempts, sleeps := CallClaudeApi(AttemptsFor(service, DigestRequest(dateRange, messages)));
    c := CallOutcome(result, attempts, sleeps);
  }

  /** `image_prompt.strip()` on `None`. */
  datatype Raise = AttributeError

  /**
   * The stripped text of the call, or the exception that calling `strip` on
   * `None` raises when both attempts fail.
   */
  method GenerateImagePrompt(digest: string, service: (Prompt, nat) -> Attempt)
    returns (r: Result<string, Raise>, c: CallOutcome)
    ensures c == ApiCall(AttemptsFor(service, IllustrationRequest(digest)), true, 0)
    ensures r.Failure? <==> c.result.None?
    ensures c.result.Some? ==> r == Success(Strip(c.result.value))
    ensures r.Success? ==> r.value == [] || (!IsSpace(r.value[0]) && !IsSpace(r.value[|r.value| - 1]))
  {
    var result, attempts, sleeps := CallClaudeApi(AttemptsFor(service, IllustrationRequest(digest)));
    c := CallOutcome(result, attempts, sleeps);
    match result
    case None =>
      r := Failure(AttributeError);
    case Some(text) =>
      StripSpec(text);
      r := Success(Strip(text));
  }
}
