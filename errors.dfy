/**
 * The errors a fixture load can report (fixture.go:16-21), plus the errors
 * that come back unchanged from the store and from a user-supplied encoder.
 */
module Errors {

  datatype Error =
    /** ErrFailReadFile, wrapping the message of the underlying read error. */
    | FailReadFile(cause: string)
    /** ErrUnknownFileExt, wrapping the offending extension. */
    | UnknownFileExt(ext: string)
    /** ErrInvalidFixture, wrapping the message of the YAML decoder. */
    | InvalidFixture(cause: string)
    /** Any error returned by the table store's admin or data client. */
    | Backend(message: string)
    /** Any error returned by a pluggable value encoder. */
    | Encoder(message: string)
}
