/** The Python behaviour the modelled code leans on: a value that may be
    `None`, and the exceptions a call can raise, as a result value. */
module Py {

  datatype Option<+T> = None | Some(value: T)

  /** The exceptions the modelled code can raise. */
  datatype PyError =
    | TypeError       // item assignment on a non-dict, or unorderable sort keys
    | AttributeError  // `.get` called on a value that is not a dict
    | KeyError        // `d[key]` for a key that is absent
    | DecodeError     // `json.loads` on text that is not JSON

  /** A call that returned a value, or raised. */
  datatype Result<+T> = Ok(value: T) | Err(error: PyError)
}
