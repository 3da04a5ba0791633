/** Small value types shared by the loaders. */
module Wrappers {

  /** A value that may be absent (JavaScript's `null` / `undefined`). */
  datatype Option<+T> = None | Some(value: T)

  /** What a `fetch` of one URL produced, as seen by the loaders:
      a response with `ok` set and its decoded body, a response whose
      `ok` is false, or an exception (network error, body decoding error). */
  datatype Fetched<+T> = Ok(body: T) | NotOk | Throws
}
