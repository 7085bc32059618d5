/** What the core receives from the transport: the HTTP layer and JSON decoding are not modelled,
    only the shape of their outcomes. */
module Replies {

  /** The `status` value every JSON envelope uses for success. */
  const SuccessStatus := "success"

  /** The message reported when a refusing envelope carries none. */
  const UnknownError := "未知错误"

  /** A request either raises a transport error (`requests.exceptions.RequestException`,
      including `raise_for_status`) or yields a body. */
  datatype Http<+T> = TransportError | Received(body: T)

  /** Decoding a JSON body either raises `JSONDecodeError` or yields the decoded envelope. */
  datatype Json<+T> = Malformed | Parsed(value: T)

  /** A text field of a decoded object that the script displays: its key may be missing, bound
      to `null`, or bound to a string. */
  datatype JsonText = Missing | Null | Str(value: string) {

    /** What `obj.get(key, default)` shows once formatted: the default only when the key is
        missing; a `null` value is Python's `None` and prints as `None`. */
    function Shown(default: string): string {
      match this
      case Missing => default
      case Null => "None"
      case Str(v) => v
    }
  }
}
