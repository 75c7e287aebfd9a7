/** What the console's two catalogs see of the file they watch, and how
    their calls end. The file system is a `FileState` parameter,
    `Instant.now()` a `now` parameter and `Instant.parse` a `parse`
    parameter that fails with `None`; instants are whole numbers on one
    clock, and a `Duration` is a number on the same scale. */
module ConsoleFiles {
  import opened Wrappers
  import opened Json

  /** `Instant.EPOCH`. */
  const Epoch := 0

  datatype FileState =
    | Absent
      // the file exists, but neither its time nor its text can be read
    | Unreadable(message: string)
      // `content` fails with the parser's message when the text is not JSON;
      // an empty file, which Jackson reads as a missing node, is `Ok(JNull)`,
      // since a null root has no fields, as a missing one has none
    | Present(modified: int, content: Result<Json, string>)

  /** Why `readFromFile` fails: an `IOException`, or a `DateTimeParseException`
      from `Instant.parse`. */
  datatype ReadError = IoError(message: string) | BadTimestamp

  /** How a call ends: normally, with an `UncheckedIOException`, or with the
      `DateTimeParseException` that escapes `readFromFile`. */
  datatype Outcome = Completed | UncheckedIo | DateTimeParse

  /** `lastLoaded` after a successful read: the file's time when it exists,
      `now` otherwise. */
  function LoadedAt(file: FileState, now: int): int {
    if file.Present? then file.modified else now
  }
}
