/**
 * The JSON envelopes the book service answers with, and the single catch-all
 * that turns every fault raised while serving a request into the same
 * opaque 500 answer.
 */
module Responses {
  import opened Wrappers
  import opened Books

  /** What a successful read puts under `result`. */
  datatype Payload =
    | BookResult(book: Option<Book>)     // `{"book": <Book|null>}`
    | BooksResult(books: seq<Book>)      // `{"books": [...]}`

  /**
   * The three envelope shapes:
   *   Ok               `{"status_code": 200, "message": "success"}`
   *   OkResult(p)      `{"status_code": 200, "result": p}`
   *   Error(code, msg) `{"status_code": code, "message": msg}`, HTTP status `code`
   */
  datatype Response =
    | Ok
    | OkResult(result: Payload)
    | Error(statusCode: int, message: string)
  {
    /** The HTTP status the envelope is sent with (it equals its `status_code` field). */
    function HttpStatus(): int {
      if Error? then statusCode else 200
    }
  }

  /** The kinds of fault a handler can raise; the catch-all ignores which one it is. */
  datatype Fault =
    | AttributeOfNone    // `book.title = ...` / `book.pages = ...` when the lookup gave `None`
    | DeleteOfNone       // `session.delete(None)`: the object is not a mapped instance
    | NegativeOffset     // a store that refuses an OFFSET below zero
    | OffsetOutOfRange   // an OFFSET too large for the store's 64-bit integer

  const InternalServerError: string := "Internal Server Error"

  /**
   * Builds an error envelope whose HTTP status is the `status_code` in its body;
   * its defaults are the ones the catch-all uses.
   */
  function DefaultErrorResponse(statusCode: int := 500, message: string := InternalServerError): (r: Response)
    ensures r.Error? && r.HttpStatus() == statusCode && r.statusCode == statusCode
    ensures r.message == message
  {
    Error(statusCode, message)
  }

  /**
   * The process-wide exception handler: whatever the fault, the caller sees
   * status 500 and the fixed message, and nothing about the fault itself.
   */
  function ExceptionHandler(fault: Fault): (r: Response)
    ensures r.Error? && r.HttpStatus() == 500
    ensures r.statusCode == 500 && r.message == "Internal Server Error"
  {
    DefaultErrorResponse()
  }

  /** No two faults can be told apart by the response they produce. */
  lemma FaultsAreIndistinguishable(f: Fault, g: Fault)
    ensures ExceptionHandler(f) == ExceptionHandler(g)
    ensures ExceptionHandler(f) != Ok && !ExceptionHandler(f).OkResult?
  {
  }
}
