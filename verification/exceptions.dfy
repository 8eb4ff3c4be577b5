/** The Python exceptions the modelled code raises or lets escape. */
module Exceptions {

  datatype Exception =
    | ValueError(message: string)      // includes json.JSONDecodeError and pydantic validation errors
    | KeyError(key: string)            // `d[key]` on a missing key
    | AttributeError(message: string)  // e.g. `.get` on something that is not a dict
    | TypeError(message: string)       // e.g. iterating None, subscripting a str with a str
    | IndexError(message: string)      // `xs[0]` on an empty list
    | UpstreamError(message: string)   // whatever the text-generation client raises

  /** Python's `str(e)` for each exception. `str(KeyError('name'))` is `'name'`, quotes included. */
  function Describe(e: Exception): string
  {
    match e
    case ValueError(m) => m
    case KeyError(k) => "'" + k + "'"
    case AttributeError(m) => m
    case TypeError(m) => m
    case IndexError(m) => m
    case UpstreamError(m) => m
  }
}
