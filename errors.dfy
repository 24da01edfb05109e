/** How an API operation can fail, by what the source raises or returns. */
module ApiErrors {

  datatype ApiError =
    /** A serializer's validation error (HTTP 400) with its detail text. */
    | ValidationError(detail: string)
    /** A 400 response the view builds itself, with its `errors` text. */
    | ErrorResponse(errors: string)
    /** `get_object_or_404` found nothing (HTTP 404). */
    | NotFound
    /** `.get()` matched more than one row and raised. */
    | MultipleObjectsReturned
    /** A dictionary `pop` of a key the payload lacks raised. */
    | KeyError(key: string)
    /** The database refused a row whose foreign key names a missing row. */
    | IntegrityError
    /** A lookup by an anonymous user object raised. */
    | TypeError
    /** A method was called on `None`. */
    | AttributeError
    /** A query named a relation the model does not have. */
    | FieldError
}
