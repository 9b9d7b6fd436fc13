/** The few pieces of Python's runtime the extractor relies on: optional
    values, the outcome of a call that may raise, and the exception classes
    that its `except` clauses test against. */
module PyRuntime {

  datatype Option<T> = None | Some(value: T)

  /** The exception classes that occur in the extractor. `OtherError` stands
      for anything else a library call may raise, including whatever the
      model client raises when a call to the backend fails. */
  datatype ExceptionClass =
    | ValueError
    | JSONDecodeError
    | ValidationError
    | SchemaError
    | FileNotFoundError
    | OtherError

  /** A raised exception: its class and the text `str(e)` gives. */
  datatype Exception = Exception(cls: ExceptionClass, message: string)

  /** What a Python call does: return a value or raise an exception. */
  datatype Py<T> = Ok(value: T) | Raise(exc: Exception)

  /** The class hierarchy as far as the handlers care: `json.JSONDecodeError`
      derives from `ValueError`, and no class here derives from
      `json.JSONDecodeError` or `jsonschema.exceptions.ValidationError`. */
  predicate IsSubclass(c: ExceptionClass, d: ExceptionClass) {
    c == d || (c == JSONDecodeError && d == ValueError)
  }

  /** Whether `except d:` catches `e`. */
  predicate IsInstance(e: Exception, d: ExceptionClass) {
    IsSubclass(e.cls, d)
  }
}
