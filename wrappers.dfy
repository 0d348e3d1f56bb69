/** Option and Result, the failure-compatible wrappers used throughout the model. */
module Wrappers {

  datatype Option<+T> = None | Some(value: T)

  /** A Python call that either returns a value or raises. */
  datatype Result<+T, +E> = Success(value: T) | Failure(error: E) {
    predicate IsFailure() { Failure? }

    function PropagateFailure<U>(): Result<U, E>
      requires Failure?
    {
      Failure(error)
    }

    function Extract(): T
      requires Success?
    {
      value
    }
  }
}

/** The exceptions the extractor raises, as values. */
module Errors {
  import opened Wrappers

  datatype Error =
    | MissingKey(key: string)                // a KeyError on a JSON field or a query parameter
    | NoVideos(message: string)              // ExtractorError('no videos found for <id>')
    | GeoRestricted(countries: Option<seq<string>>)  // raise_geo_restricted(countries=...), possibly None
    | MalformedPayload                       // a smuggled side-channel that does not decode
    | UrlMismatch                            // a URL the extractor's pattern does not match
    | Transport(message: string)             // a failed download of the API document
}
