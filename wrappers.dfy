/** Optional values and the outcome of a request: either a value or one of
    the failures a view can end in. */
module Wrappers {

  datatype Option<+T> = None | Some(value: T)

  /** Why a request did nothing.
      - Forbidden: the role check refused it (HTTP 403);
      - NotFound: an id did not resolve to a stored row (a 404, a raised
        DoesNotExist, or a principal that has no profile);
      - Invalid: a field value outside its declared choices;
      - Conflict: a uniqueness constraint of the schema would be broken. */
  datatype Error = Forbidden | NotFound | Invalid | Conflict

  datatype Result<+T> = Success(value: T) | Failure(error: Error)
}
