/**
 * The call primitive of textmagic.go (sendAPI) and the four error types it
 * returns. The HTTP exchange and JSON decoding are not modelled: a call is
 * described by a Response record holding what each of those steps yielded.
 */
module Api {
  import opened Wrappers

  /** The four failures sendAPI can return, each tagged with its command name. */
  datatype Error =
    | RequestError(cmd: string, err: string)
    | StatusError(cmd: string, statusCode: int)
    | JSONError(cmd: string, err: string)
    | APIError(cmd: string, code: int, message: string)

  /** The provider's error envelope: {"error_code": …, "error_message": …}; absent fields read as zero. */
  datatype Envelope = Envelope(errorCode: int, errorMessage: string)

  /**
   * What one GET of the API endpoint produced:
   * - transport: None when the request completed, else the transport error's text;
   * - statusCode: the HTTP status of the reply;
   * - envelope: the body decoded as an error envelope, or the decoder's error text;
   * - payload: what decoding the same body into a target passed by pointer leaves there;
   * - payloadOk: whether that second decode reported no error.
   */
  datatype Response<P> = Response(
    transport: Option<string>,
    statusCode: int,
    envelope: Result<Envelope, string>,
    payload: P,
    payloadOk: bool)

  const StatusOK := 200

  /**
   * How a caller hands its result variable to sendAPI. json.Unmarshal fills a
   * target passed by pointer; given a target passed by value (a map, say) it
   * reports an error, which sendAPI discards, and the caller's variable keeps
   * the value it had before the call.
   */
  datatype Target<P> = ByPointer | ByValue(initial: P)

  /**
   * sendAPI: checks the transport, then the status, then the envelope, then
   * its error code, returning the first failure found, or what the caller's
   * target holds after the second decode.
   */
  function SendAPI<P>(cmd: string, resp: Response<P>, target: Target<P>): (r: Result<P, Error>)
    ensures r.Failure? ==> r.error.cmd == cmd
    ensures (r.Failure? && r.error.RequestError?) <==> resp.transport.Some?
    ensures (r.Failure? && r.error.StatusError?) <==>
              resp.transport.None? && resp.statusCode != StatusOK
    ensures (r.Failure? && r.error.JSONError?) <==>
              resp.transport.None? && resp.statusCode == StatusOK && resp.envelope.Failure?
    ensures (r.Failure? && r.error.APIError?) <==>
              resp.transport.None? && resp.statusCode == StatusOK && resp.envelope.Success?
              && resp.envelope.value.errorCode != 0
    ensures r.Failure? && r.error.APIError? ==>
              r.error.code == resp.envelope.value.errorCode
              && r.error.message == resp.envelope.value.errorMessage
    ensures r.Success? && target.ByPointer? ==> r.value == resp.payload
    ensures r.Success? && target.ByValue? ==> r.value == target.initial
  {
    match resp.transport
    case Some(e) => Failure(RequestError(cmd, e))
    case None =>
      if resp.statusCode != StatusOK then Failure(StatusError(cmd, resp.statusCode))
      else match resp.envelope
        case Failure(e) => Failure(JSONError(cmd, e))
        case Success(env) =>
          if env.errorCode != 0 then Failure(APIError(cmd, env.errorCode, env.errorMessage))
          else match target
            case ByPointer => Success(resp.payload)
            case ByValue(initial) => Success(initial)
  }

  /** A failed payload decode after a clean envelope is not reported: the outcome ignores payloadOk. */
  lemma PayloadDecodeIgnored<P>(cmd: string, resp: Response<P>, ok: bool, target: Target<P>)
    ensures SendAPI(cmd, resp.(payloadOk := ok), target) == SendAPI(cmd, resp, target)
  {
  }

  /** A target passed by value never sees the reply body: the outcome is the same whatever the payload. */
  lemma ValueTargetIgnoresPayload<P>(cmd: string, resp: Response<P>, payload: P, initial: P)
    ensures SendAPI(cmd, resp.(payload := payload), ByValue(initial)) == SendAPI(cmd, resp, ByValue(initial))
  {
  }

  /** A provider rejection never yields the payload, whatever the body also holds. */
  lemma RejectionHidesPayload<P>(cmd: string, resp: Response<P>, code: int, message: string, target: Target<P>)
    requires resp.transport.None? && resp.statusCode == StatusOK
    requires resp.envelope == Success(Envelope(code, message)) && code != 0
    ensures SendAPI(cmd, resp, target) == Failure(APIError(cmd, code, message))
  {
  }

  /** Fixed text of each message, after "command <cmd>". */
  const ApiErrorText := " returned the following API error: "
  // Two literals: the verifier sees the characters of a literal this long only when it is built from shorter ones.
  const RequestErrorText := " returned the following error" + " while makeing the API call: "
  const StatusErrorText := " returned a non-200 OK response: "
  const JSONErrorText := " returned malformed JSON: "

  /** Error(): the message of each error type; statusText stands for http.StatusText. */
  function ErrorText(e: Error, statusText: int -> string): (msg: string)
    ensures "command " + e.cmd <= msg
  {
    "command " + e.cmd + Detail(e, statusText)
  }

  /** What each error type's message says after "command <cmd>". */
  function Detail(e: Error, statusText: int -> string): (d: string)
    ensures |d| >= 1 && d[0] == ' '
  {
    match e
    case APIError(_, _, message) => ApiErrorText + message
    case RequestError(_, err) => RequestErrorText + err
    case StatusError(_, code) => StatusErrorText + statusText(code)
    case JSONError(_, err) => JSONErrorText + err
  }

  /** The text of s up to its first space. */
  function Word(s: string): string
  {
    if s == [] || s[0] == ' ' then [] else [s[0]] + Word(s[1..])
  }

  /** The command name an error message names: the word after "command ". */
  function CommandOf(msg: string): Option<string>
  {
    if |msg| >= 8 && msg[..8] == "command " then Some(Word(msg[8..])) else None
  }

  lemma {:induction false} WordBeforeSpace(w: string, rest: string)
    requires ' ' !in w
    ensures Word(w + " " + rest) == w
  {
    if w != [] {
      assert (w + " " + rest)[1..] == w[1..] + " " + rest;
      WordBeforeSpace(w[1..], rest);
      assert [w[0]] + w[1..] == w;
    } else {
      assert w + " " + rest == " " + rest;
    }
  }

  /** The command is read back from any text of the form "command <cmd> <rest>". */
  lemma CommandOfPrefixed(cmd: string, rest: string)
    requires ' ' !in cmd
    ensures CommandOf("command " + cmd + " " + rest) == Some(cmd)
  {
    var msg := "command " + cmd + " " + rest;
    assert msg[..8] == "command ";
    assert msg[8..] == cmd + " " + rest;
    WordBeforeSpace(cmd, rest);
  }

  /** Every command name is space-free, so the command can be read back from any error message. */
  lemma CommandRecoverable(e: Error, statusText: int -> string)
    requires ' ' !in e.cmd
    ensures CommandOf(ErrorText(e, statusText)) == Some(e.cmd)
  {
    var d := Detail(e, statusText);
    assert d == " " + d[1..];
    assert ErrorText(e, statusText) == "command " + e.cmd + " " + d[1..];
    CommandOfPrefixed(e.cmd, d[1..]);
  }
}
