/** Optional values, the error kinds the request handlers raise, and results. */
module Wrappers {

  datatype Option<+T> = None | Some(value: T)

  /** What a request can fail with. The handlers raise HTTP exceptions with
      Russian messages; the model keeps only which failure it is. */
  datatype Error =
    | EmailAlreadyRegistered   // a user row with this email exists
    | TokenExpiredOrInvalid    // no row with this token and expires_at > now
    | PasswordMismatch         // new password and its confirmation differ
    | WeakPassword             // fewer than 8 characters
    | SamePassword             // new password verifies against the stored hash
    | InvalidEmail             // no '@', or no '.' after the last '@'
    | InvalidCredentials       // login: unknown email or wrong password, one message
    | Unauthenticated          // the 401 of get_current_user
    | UserNotFound             // reset token whose owner is gone
    | UniqueViolation          // a unique constraint rejected the commit
    | NotNullViolation         // a NOT NULL column was given NULL at commit
    | NullValue                // len() of None inside a handler (a TypeError)
    | InternalError            // an exception no handler catches (HTTP 500)
    | NoCollections            // the caller owns no collection
    | CollectionNotFound
    | CollectionExists
    | EmptyName
    | LinkNotFound
    | LinkExists
    | AlreadyInCollection
    | NotInCollection
    | InvalidLinkType
    | InvalidUrl               // None or empty url given to the metadata fetcher
    | FetchFailed              // the page could not be fetched
    | MissingAttribute         // a found meta tag has no content attribute (KeyError)
    | ForeignKeyViolation      // a row is still referenced by a foreign key without ON DELETE

  datatype Result<+T> = Ok(value: T) | Err(error: Error)
}
