/** What one worker of `ConvertEmail` does with one email:
 the model call behind breaker and retry, and the publication. */
module Analyzer {
  import opened Prelude
  import R = Retry

  type Error = R.Error
  type Time = int

  const BREAKER_OPEN: Error := "circuit breaker is open"
  const EMPTY_RESPONSE: Error := "empty response from Mistral API"
  const FALLBACK_DESCRIPTION := "Не удалось обработать письмо автоматически"

  datatype RawEmail = RawEmail(emailId: string, userId: string, from: string, subject: string, text: string)

  /** `deadline` is None for Go's zero time. */
  datatype ParsedEmail = ParsedEmail(
    userId: string, emailId: string, title: string, description: string, deadline: Option<Time>, from: string)

  /** The JSON of an answer, once decoded. */
  datatype Content = Content(title: string, description: string, deadline: Option<Time>)

  /** A choice of the model's answer: its content, or the error of decoding it. */
  datatype Choice = Decoded(content: Content) | Undecodable(err: Error)

  /** One call of the model. */
  datatype Attempt = Answer(choices: seq<Choice>) | Failure(err: Error, retryable: bool)

  /** Everything outside the worker's control; `openAfter` is the breaker's state when it is asked afterwards. */
  datatype World = World(
    formatErr: Option<Error>, admitted: bool, attempt: nat -> Attempt,
    ctxBefore: nat -> Option<Error>, ctxDuringWait: nat -> Option<Error>,
    openAfter: bool, publishErr: Option<Error>)

  datatype Disposition = PublishedParsed(msg: ParsedEmail) | PublishedFallback(msg: ParsedEmail) | Errored(err: Error)

  function EnvOf(w: World): R.Env {
    R.Env((i: nat) => if w.attempt(i).Failure? then Some(w.attempt(i).err) else None, w.ctxBefore, w.ctxDuringWait)
  }

  /** The error of the breaker or the retry loop. */
  function CircuitError(cfg: R.RetryConfig, w: World): Option<Error> {
    if w.admitted then R.Verdict(cfg, EnvOf(w), 0, None) else Some(BREAKER_OPEN)
  }

  /**
   The model call with its captured variables: each attempt overwrites `resp`, and `apiErr` only if
   the failure is not retryable or there is none. When no error is left over, `resp` is the answer
   of the last attempt, which succeeded.
   */
  method CallModel(cfg: R.RetryConfig, w: World) returns (resp: Option<seq<Choice>>, apiErr: Option<Error>)
    requires cfg.maxAttempts >= 1
    ensures apiErr == CircuitError(cfg, w)
    ensures !w.admitted ==> apiErr == Some("circuit breaker is open")
    ensures w.admitted ==> apiErr == R.Verdict(cfg, EnvOf(w), 0, None)
    ensures apiErr.None? ==>
      var last := R.Calls(cfg, EnvOf(w), 0) - 1;
      0 <= last && w.attempt(last).Answer? && resp == Some(w.attempt(last).choices)
  {
    resp, apiErr := None, None;
    var circuitErr: Option<Error> := Some(BREAKER_OPEN);
    if w.admitted {
      var err, calls, waits := R.Retry(cfg, EnvOf(w));
      R.NilMeansSuccess(cfg, EnvOf(w), 0, None);
      circuitErr := err;
      for i := 0 to calls
        invariant i > 0 ==> resp == if w.attempt(i - 1).Answer? then Some(w.attempt(i - 1).choices) else None
        invariant i > 0 && w.attempt(i - 1).Answer? ==> apiErr == None
      {
        match w.attempt(i) {
          case Answer(choices) =>
            resp := Some(choices);
            apiErr := None;
          case Failure(e, retryable) =>
            resp := None;
            if !retryable {
              apiErr := Some(e);
            }
        }
      }
    }
    if circuitErr.Some? {
      apiErr := circuitErr;
    }
  }

  /** The answer that the model call leaves, if it succeeded. */
  function ModelAnswer(cfg: R.RetryConfig, w: World): Option<seq<Choice>>
    requires cfg.maxAttempts >= 1
  {
    var calls := R.Calls(cfg, EnvOf(w), 0);
    if CircuitError(cfg, w).None? && calls > 0 && w.attempt(calls - 1).Answer?
    then Some(w.attempt(calls - 1).choices) else None
  }

  method ProcessEmail(cfg: R.RetryConfig, email: RawEmail, w: World) returns (d: Disposition)
    requires cfg.maxAttempts >= 1
    ensures !d.Errored? ==>
      && w.formatErr.None? && w.publishErr.None?
      && d.msg.userId == email.userId && d.msg.emailId == email.emailId && d.msg.from == email.from
    ensures d.PublishedParsed? <==>
      w.formatErr.None? && w.publishErr.None? && ModelAnswer(cfg, w).Some?
      && ModelAnswer(cfg, w).value != [] && ModelAnswer(cfg, w).value[0].Decoded?
    ensures d.PublishedParsed? ==>
      Content(d.msg.title, d.msg.description, d.msg.deadline) == ModelAnswer(cfg, w).value[0].content
    ensures d.PublishedFallback? <==>
      w.formatErr.None? && w.publishErr.None? && CircuitError(cfg, w).Some? && w.openAfter
    ensures d.PublishedFallback? ==>
      d.msg.title == email.subject && d.msg.deadline == None
      && d.msg.description == "Не удалось обработать письмо автоматически"
    ensures w.formatErr.Some? ==> d == Errored(w.formatErr.value)
    ensures w.formatErr.None? && CircuitError(cfg, w).Some? && !w.openAfter ==> d == Errored(CircuitError(cfg, w).value)
    ensures w.formatErr.None? && CircuitError(cfg, w).Some? && w.openAfter && w.publishErr.Some? ==>
      d == Errored(w.publishErr.value)
    ensures w.formatErr.None? && !w.admitted ==> d.PublishedFallback? || d.Errored?
    ensures w.formatErr.None? && !w.admitted && !w.openAfter ==> d == Errored("circuit breaker is open")
    ensures w.formatErr.None? && ModelAnswer(cfg, w).Some? ==>
      var choices := ModelAnswer(cfg, w).value;
      && (choices == [] ==> d == Errored("empty response from Mistral API"))
      && (choices != [] && choices[0].Undecodable? ==> d == Errored(choices[0].err))
      && (choices != [] && choices[0].Decoded? && w.publishErr.Some? ==> d == Errored(w.publishErr.value))
  {
    if w.formatErr.Some? {
      return Errored(w.formatErr.value);
    }
    var resp, apiErr := CallModel(cfg, w);
    if apiErr.Some? {
      if w.openAfter {
        if w.publishErr.Some? {
          return Errored(w.publishErr.value);
        }
        return PublishedFallback(
          ParsedEmail(email.userId, email.emailId, email.subject, FALLBACK_DESCRIPTION, None, email.from));
      }
      return Errored(apiErr.value);
    }
    if |resp.value| == 0 {
      return Errored(EMPTY_RESPONSE);
    }
    match resp.value[0] {
      case Undecodable(e) => return Errored(e);
      case Decoded(c) =>
        if w.publishErr.Some? {
          return Errored(w.publishErr.value);
        }
        return PublishedParsed(
          ParsedEmail(email.userId, email.emailId, c.title, c.description, c.deadline, email.from));
    }
  }
}
