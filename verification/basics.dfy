/** Small value types shared by every part of the model: optional values,
    success-or-error results, and the JSON-like scalars that the vendor
    client and the host pass around in dictionaries. */
module Basics {

  datatype Option<+T> = None | Some(value: T)

  datatype Result<+T, +E> = Success(value: T) | Failure(error: E)

  /** A scalar as it appears in a decoded status report or config record.
      `JNull` stands for Python's `None`, which `dict.get` yields for a
      missing key. */
  datatype Json = JNull | JBool(b: bool) | JInt(i: int) | JStr(s: string)
}
