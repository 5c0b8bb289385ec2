/** Option and Result types, and the Python exceptions that the query engine
    raises or lets propagate to its caller. */
module Wrappers {

  datatype Option<+T> = None | Some(value: T)

  /** The exceptions the modelled code raises or propagates. */
  datatype PyException =
    | KeyError                  // missing key in a `%` substitution or a dict lookup
    | ValueError                // `int()` of a string that is not an integer
    | TypeError                 // e.g. `json.loads(None)`
    | IndexError                // `result[0]` on an empty result
    | TemplateSyntaxError       // raised by the template engine
    | ConnectionDoesNotExist    // `connections[alias]` for an unknown alias
    | DatabaseError             // anything `cursor.execute` raises

  datatype Result<+T> = Success(value: T) | Failure(error: PyException)
}
