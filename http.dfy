/**
 * What the route handlers share: the reply written by
 * utils/return_json_response.go, the outcome of decoding a JSON body into a
 * nil struct pointer, and the id taken from the end of the URL path.
 */
module Http {
  import opened Wrappers
  import opened Strings

  /** A JSON body: nothing (`null`), an `{"error": …}` object, or a route's own record. */
  datatype Body<T> = Empty | Message(text: string) | Data(value: T)

  /**
   * What a request gets:
   * - Reply: a status and a body;
   * - Unmapped: a bare Go `error` from models/admin.go, which the routes
   *   read as a `*types.AppError`; its status is not fixed by the code;
   * - Dropped: the handler panicked and net/http sends no reply.
   */
  datatype Reply<T> = Reply(status: int, body: Body<T>) | Unmapped(text: string) | Dropped

  /** An error written out with its own status and message. */
  function Failure<T>(e: AppError): (reply: Reply<T>)
    ensures e.AppError? ==> reply == Reply(e.statusCode, Message(e.message))
    ensures e.Plain? ==> reply == Unmapped(e.text)
    ensures e.RuntimePanic? ==> reply == Dropped
  {
    match e
    case AppError(status, message) => Reply(status, Message(message))
    case Plain(text) => Unmapped(text)
    case RuntimePanic => Dropped
  }

  function MethodNotAllowed<T>(): Reply<T>
  {
    Reply(405, Empty)
  }

  function BadRequest<T>(message: string): Reply<T>
  {
    Reply(400, Message(message))
  }

  /**
   * `json.NewDecoder(request.Body).Decode(&body)` with `body` a nil struct
   * pointer: an empty body (`io.EOF`), text that is not JSON of that shape,
   * the literal `null` (which leaves the pointer nil), or a record whose
   * missing fields are empty.
   */
  datatype Decoded<T> = Eof | Invalid | Null | Object(value: T)

  /**
   * The id at the end of the path: the last '/'-separated segment, or the
   * one before it when the path ends in '/'. A path without '/' that is
   * empty indexes the segment list at -1 and panics.
   */
  function PathId(path: string): (r: Result<string>)
    ensures r.Err? <==> path == ""
    ensures r.Err? ==> r.error == RuntimePanic
  {
    var parts := Split(path, '/');
    if parts[|parts| - 1] != "" then Ok(parts[|parts| - 1])
    else if |parts| >= 2 then Ok(parts[|parts| - 2])
    else
      SplitWithoutSeparator(path, '/');
      Err(RuntimePanic)
  }

  /** The last segment is the id. */
  lemma PathIdLast(prefix: string, id: string)
    requires '/' !in id && id != ""
    ensures PathId(prefix + "/" + id) == Ok(id)
  {
    assert prefix + "/" + id == prefix + ['/'] + id;
    SplitAround(prefix, '/', id);
    SplitWithoutSeparator(id, '/');
  }

  /** With a trailing '/', the segment before it is the id. */
  lemma PathIdTrailingSlash(prefix: string, id: string)
    requires '/' !in id
    ensures PathId(prefix + "/" + id + "/") == Ok(id)
  {
    assert prefix + "/" + id + "/" == prefix + ['/'] + (id + ['/'] + "");
    SplitAround(prefix, '/', id + ['/'] + "");
    SplitAfterPiece(id, '/', "");
  }
}
