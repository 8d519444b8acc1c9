/**
  The two request loggers: `successLogger` writes responses below 400,
  `errorLogger` the others, each with its own morgan format string.
*/
module RequestLogging {
  import opened Common
  import opened Strings
  import Responses

  const PRODUCTION := "production"
  const IP_FORMAT := ":remote-addr - "
  const SUCCESS_TOKENS := ":method :url :status - :response-time ms"
  const MESSAGE_SUFFIX := " - message: :message"

  /** `getIpFormat()`: the client address token, in production only. */
  function IpFormat(nodeEnv: Option<string>): (f: string)
    ensures nodeEnv == Some(PRODUCTION) ==> f == IP_FORMAT
    ensures nodeEnv != Some(PRODUCTION) ==> f == ""
  {
    if nodeEnv == Some(PRODUCTION) then IP_FORMAT else ""
  }

  function SuccessFormat(nodeEnv: Option<string>): string {
    IpFormat(nodeEnv) + SUCCESS_TOKENS
  }

  function ErrorFormat(nodeEnv: Option<string>): string {
    IpFormat(nodeEnv) + SUCCESS_TOKENS + MESSAGE_SUFFIX
  }

  /** The address token is not a prefix of the tokens that follow it. */
  lemma TokensLackAddress()
    ensures !StartsWith(SUCCESS_TOKENS, IP_FORMAT)
    ensures !StartsWith(SUCCESS_TOKENS + MESSAGE_SUFFIX, IP_FORMAT)
  {
    assert SUCCESS_TOKENS[1] == 'm' && IP_FORMAT[1] == 'r';
    assert (SUCCESS_TOKENS + MESSAGE_SUFFIX)[1] == 'm';
  }

  /** Both formats start with the address token exactly in production, and the error format extends the success format. */
  lemma FormatsShape(nodeEnv: Option<string>)
    ensures StartsWith(SuccessFormat(nodeEnv), IP_FORMAT) <==> nodeEnv == Some(PRODUCTION)
    ensures StartsWith(ErrorFormat(nodeEnv), IP_FORMAT) <==> nodeEnv == Some(PRODUCTION)
    ensures ErrorFormat(nodeEnv) == SuccessFormat(nodeEnv) + MESSAGE_SUFFIX
    ensures SuccessFormat(nodeEnv)[|IpFormat(nodeEnv)|..] == SUCCESS_TOKENS
  {
    var ip := IpFormat(nodeEnv);
    var s := SuccessFormat(nodeEnv);
    var e := ErrorFormat(nodeEnv);
    assert s == ip + SUCCESS_TOKENS;
    assert e == ip + (SUCCESS_TOKENS + MESSAGE_SUFFIX);
    if nodeEnv == Some(PRODUCTION) {
      assert s[..|IP_FORMAT|] == IP_FORMAT;
      assert e[..|IP_FORMAT|] == IP_FORMAT;
    } else {
      assert s == SUCCESS_TOKENS;
      assert e == SUCCESS_TOKENS + MESSAGE_SUFFIX;
      TokensLackAddress();
    }
  }

  /** The `:message` token: `res.locals.errorMessage`, or "" when it is missing or empty. */
  function MessageToken(errorMessage: Option<string>): (m: string)
    ensures Truthy(errorMessage) ==> m == errorMessage.value
    ensures !Truthy(errorMessage) ==> m == ""
  {
    if Truthy(errorMessage) then errorMessage.value else ""
  }

  /** The `skip` options of the two loggers. */
  predicate SuccessSkips(status: int) { status >= 400 }
  predicate ErrorSkips(status: int) { status < 400 }

  datatype Logger = SuccessLogger | ErrorLogger

  /** The loggers that write a response with this status. */
  function WrittenBy(status: int): (ls: set<Logger>)
    ensures SuccessLogger in ls <==> !SuccessSkips(status)
    ensures ErrorLogger in ls <==> !ErrorSkips(status)
  {
    (if SuccessSkips(status) then {} else {SuccessLogger}) + (if ErrorSkips(status) then {} else {ErrorLogger})
  }

  /** Every response is written by exactly one of the two loggers. */
  lemma ExactlyOneLogger(status: int)
    ensures |WrittenBy(status)| == 1
    ensures WrittenBy(status) == (if status < 400 then {SuccessLogger} else {ErrorLogger})
  {
  }

  /** A response sent through `sendResponse` is logged as a success exactly when its envelope says `success`. */
  lemma SuccessEnvelopeLoggedAsSuccess<T>(statusCode: int, data: T, message: Option<string>)
    ensures var s := Responses.SendResponse(statusCode, data, message);
            WrittenBy(s.status) == (if s.body.success then {SuccessLogger} else {ErrorLogger})
  {
  }
}
