/** The application's error type. A duplicate insert is reported as a configuration
    error carrying a fixed message; there is no dedicated variant for it. */
module Errors {

  datatype ClipError =
    | Database(message: string)
    | Clipboard(message: string)
    | Io(message: string)
    | Serialization(message: string)
    | Config(message: string)
    | ContentTooLarge(size: nat, maxSize: nat)
    | UnsupportedContentType

  /** The message the store attaches to a rejected duplicate insert. */
  const DUPLICATE_MESSAGE: string := "Content already exists"
}
