/** Values and failure types shared by all models of the Houdini/PDG tooling.
    `Option` stands for Python's `None`-or-value, `Result` for "returns a value
    or raises", and `Value` for the dynamically typed arguments the remote
    reporting helpers accept. */
module PyBase {

  datatype Option<+T> = None | Some(value: T)

  /** The Python exception classes the modelled code raises or lets through. */
  datatype PyError =
    | TypeError(message: string)
    | KeyError(key: string)
    | AttributeError(attribute: string)
    | ValueError(message: string)
    | RuntimeError(message: string)
    | IndexError(message: string)
    | UnboundLocalError(name: string)

  datatype Result<+T> = Ok(value: T) | Err(error: PyError)

  /** A Python object as far as the argument checks of the reporting helpers
      can tell them apart: a string-like object (str, bytes, bytearray,
      unicode), an int, a float, a list or tuple, or anything else. */
  datatype Value =
    | Str(s: string)
    | Int(i: int)
    | Float(x: real)
    | List(items: seq<Value>)
    | Other
}
