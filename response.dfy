/** The success envelope `ApiResponse` and `sendResponse`, which answers with the envelope's status code. */
module Responses {
  import opened Common
  import ErrorHandler

  const DEFAULT_MESSAGE := "Success"

  /** `ApiResponse<T>`: its four fields, assigned once by the constructor. */
  datatype ApiResponse<T> = ApiResponse(statusCode: int, data: T, message: string, success: bool)

  /** What `sendResponse` does: the HTTP status it sets and the JSON body it sends. */
  datatype Sent<T> = Sent(status: int, body: ApiResponse<T>)

  /**
    `new ApiResponse(statusCode, data, message)`; `message` is None when the
    argument is omitted or undefined, and only then does it default to "Success".
  */
  function NewApiResponse<T>(statusCode: int, data: T, message: Option<string>): (r: ApiResponse<T>)
    ensures r.statusCode == statusCode && r.data == data
    ensures r.success <==> statusCode < 400
    ensures message.None? ==> r.message == DEFAULT_MESSAGE
    ensures message.Some? ==> r.message == message.value
  {
    ApiResponse(statusCode, data, if message.Some? then message.value else DEFAULT_MESSAGE, statusCode < 400)
  }

  /** `sendResponse(res, statusCode, data, message)`. */
  function SendResponse<T>(statusCode: int, data: T, message: Option<string>): (s: Sent<T>)
    ensures s.status == s.body.statusCode == statusCode
    ensures s.body == NewApiResponse(statusCode, data, message)
  {
    Sent(statusCode, NewApiResponse(statusCode, data, message))
  }

  /**
    The success flag of the two envelopes agrees on every error the handler
    builds itself (400 or 500); an ApiError thrown with a code below 400 is
    sent with `success: false` although `ApiResponse` would mark that code a success.
  */
  lemma EnvelopesAgree(t: ErrorHandler.Thrown, nodeEnv: Option<string>, hasFile: bool, hasFiles: bool, data: int)
    ensures var h := ErrorHandler.HandleError(t, nodeEnv, hasFile, hasFiles);
            !t.ApiErr? || t.error.statusCode >= 400 ==>
              NewApiResponse(h.status, data, Some(h.body.message)).success == h.body.success
    ensures var h := ErrorHandler.HandleError(t, nodeEnv, hasFile, hasFiles);
            t.ApiErr? && t.error.statusCode < 400 ==>
              NewApiResponse(h.status, data, Some(h.body.message)).success != h.body.success
  {
  }
}
