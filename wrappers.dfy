/** The optional value used wherever the screener reads something that may be
    absent: a Python `None`, a failed fetch, a missing lookup. */
module Wrappers {

  datatype Option<+T> = None | Some(value: T)

  /** A field of a JSON object as the providers send it: the key may be
      missing, present with `null`, or present with a value. */
  datatype Field<+T> = Missing | Null | Present(value: T)
}
