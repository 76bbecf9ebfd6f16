/**
 * `call_claude_api`: one logical request to the text-generation service.
 * The outcome of the n-th transport attempt of the call is supplied by the
 * caller as `attempt(n)`, counting from 0; the transport, the headers and
 * the payload are not modelled. A call with `retry` set makes a second
 * attempt, without `retry`, after any failure, and every attempt sleeps
 * `REQUEST_INTERVAL` once in its `finally` clause; the wait before the
 * retry is one more sleep.
 */
module TextClient {
  import opened Wrappers

  const MaxRequestsPerMinute: nat := 30

  /** `60 / MAX_REQUESTS_PER_MINUTE` seconds, which is the whole number 2. */
  const RequestInterval: nat := 60 / MaxRequestsPerMinute

  /**
   * What one attempt saw: a response with its status and, when the body is
   * JSON holding `content[0].text`, that text; or an exception raised by the
   * transport.
   */
  datatype Attempt =
    | Response(status: int, body: Option<string>)
    | Raised

  /** The attempt took the `return result['content'][0]['text']` exit. */
  predicate Succeeded(a: Attempt) {
    a.Response? && a.status == 200 && a.body.Some?
  }

  function TextOf(a: Attempt): string
    requires Succeeded(a)
  {
    a.body.value
  }

  /** The value returned, the attempts made, and the `REQUEST_INTERVAL` sleeps taken. */
  datatype CallOutcome = CallOutcome(result: Option<string>, attempts: nat, sleeps: nat)

  /**
   * `call_claude_api(session, prompt, retry)` whose first attempt is `attempt(n)`.
   * A non-200 status, a body that cannot be read and a transport exception
   * all lead to the same place: the retry if the flag is set, `None` if not.
   */
  function ApiCall(attempt: nat -> Attempt, retry: bool, n: nat): (c: CallOutcome)
    ensures 1 <= c.attempts <= (if retry then 2 else 1)
    ensures c.sleeps == 2 * c.attempts - 1
    ensures forall i :: n <= i < n + c.attempts - 1 ==> !Succeeded(attempt(i))
    ensures c.result.Some? <==> Succeeded(attempt(n + c.attempts - 1))
    ensures c.result.Some? ==> c.result.value == TextOf(attempt(n + c.attempts - 1))
    ensures c.attempts == 1 <==> !retry || Succeeded(attempt(n))
    decreases retry
  {
    if Succeeded(attempt(n)) then CallOutcome(Some(TextOf(attempt(n))), 1, 1)
    else if retry then
      var inner := ApiCall(attempt, false, n + 1);
      CallOutcome(inner.result, inner.attempts + 1, inner.sleeps + 2)
    else CallOutcome(None, 1, 1)
  }

  /**
   * The call as the script makes it, with `retry=True`, written as a loop
   * whose attempt counter replaces the recursion. The sleeps of the
   * `finally` clauses, one per attempt, are added once the attempts are over.
   */
  method CallClaudeApi(attempt: nat -> Attempt) returns (result: Option<string>, attempts: nat, sleeps: nat)
    ensures CallOutcome(result, attempts, sleeps) == ApiCall(attempt, true, 0)
  {
    var retry := true;
    var done := false;
    result := None;
    attempts := 0;
    sleeps := 0;
    while !done
      invariant !done ==> result == None
      invariant !done && retry ==> attempts == 0 && sleeps == 0
      invariant !done && !retry ==> attempts == 1 && sleeps == 1 && !Succeeded(attempt(0))
      invariant done ==> CallOutcome(result, attempts, sleeps + attempts) == ApiCall(attempt, true, 0)
      decreases !done, retry
    {
      var a := attempt(attempts);
      attempts := attempts + 1;
      if Succeeded(a) {
        result := Some(TextOf(a));
        done := true;
      } else if retry {
        sleeps := sleeps + 1;
        retry := false;
      } else {
        done := true;
      }
    }
    sleeps := sleeps + attempts;
  }

  /** The time the call spends asleep: 2 seconds after a first success, 6 otherwise. */
  lemma SleepTime(attempt: nat -> Attempt)
    ensures var c := ApiCall(attempt, true, 0);
      c.sleeps * RequestInterval == (if Succeeded(attempt(0)) then 2 else 6)
  {
  }

  /** A non-200 status followed by a good response: the second text is returned after two attempts. */
  lemma RetryAfterHttpError(attempt: nat -> Attempt, status: int, text: string)
    requires status != 200
    requires attempt(0) == Response(status, Some("error")) && attempt(1) == Response(200, Some(text))
    ensures ApiCall(attempt, true, 0) == CallOutcome(Some(text), 2, 3)
  {
  }

  /**
   * How the first attempt failed does not matter: a non-200 status, a 200
   * whose body cannot be read and an exception lead to the same outcome.
   */
  lemma FailureKindIrrelevant(a1: nat -> Attempt, a2: nat -> Attempt)
    requires !Succeeded(a1(0)) && !Succeeded(a2(0)) && a1(1) == a2(1)
    ensures ApiCall(a1, true, 0) == ApiCall(a2, true, 0)
  {
  }
}
