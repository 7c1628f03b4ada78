/** The finder's error taxonomy and the byte-level inputs it decodes. */
module Errors {
  import opened Wrappers

  /** One byte of file content. */
  newtype byte = x: int | 0 <= x < 256

  /** std::str::Utf8Error: the length of the longest valid prefix. */
  datatype Utf8Error = Utf8Error(validUpTo: nat)

  /** grep::regex::Error, reduced to its message. */
  datatype RegexError = RegexError(message: string)

  /** FinderError: one variant per cause the finder distinguishes. */
  datatype FinderError =
    | Io(ioMessage: string)
    | Grep(regex: RegexError)
    | Utf8(utf8: Utf8Error)
    | Unknown(message: string)

  /** std::str::from_utf8, which the finder calls but does not define. */
  type Utf8Decoder = seq<byte> -> Result<string, Utf8Error>
}
