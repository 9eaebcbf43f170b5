/** The guard chain of `handleFileSelect`: no file, then the type check, then the size check, then the read. */
module FileUpload {
  import opened Wrappers

  const MAX_FILE_SIZE: nat := 5 * 1024 * 1024
  const IMAGE_PREFIX: string := "image/"
  const NOT_AN_IMAGE: string := "Please select an image file"
  const TOO_LARGE: string := "File size must be less than 5MB"
  const READ_FAILED: string := "Error reading file"

  /** A selected file: its MIME type and its size in bytes. */
  datatype File = File(mimeType: string, size: nat)

  /** What reading the file as a data URL gives: the URL, or a reader error. */
  datatype ReadOutcome = DataUrl(url: string) | ReadError

  /**
   * `handleFileSelect(file)`: `null` for no file (`Success(None)`), the data URL for an
   * accepted image, or the message it throws. `read` is what the file reader would produce.
   */
  function HandleFileSelect(file: Option<File>, read: ReadOutcome): (r: Result<Option<string>, string>)
    ensures file.None? ==> r == Success(None)
    ensures file.Some? && !(IMAGE_PREFIX <= file.value.mimeType) ==> r == Failure(NOT_AN_IMAGE)
    ensures file.Some? && IMAGE_PREFIX <= file.value.mimeType && file.value.size > MAX_FILE_SIZE ==>
              r == Failure(TOO_LARGE)
    ensures r.Success? && r.value.Some? <==>
              && file.Some? && IMAGE_PREFIX <= file.value.mimeType
              && file.value.size <= MAX_FILE_SIZE && read.DataUrl?
    ensures r.Success? && r.value.Some? ==> r.value.value == read.url
    ensures (file.Some? && IMAGE_PREFIX <= file.value.mimeType && file.value.size <= MAX_FILE_SIZE
             && read.ReadError?) ==> r == Failure(READ_FAILED)
  {
    if file.None? then Success(None)
    else if !(IMAGE_PREFIX <= file.value.mimeType) then Failure(NOT_AN_IMAGE)
    else if file.value.size > MAX_FILE_SIZE then Failure(TOO_LARGE)
    else match read
      case DataUrl(url) => Success(Some(url))
      case ReadError => Failure(READ_FAILED)
  }

  /**
   * The limit is inclusive: an image of any size up to and including 5 MiB is handled as an
   * empty one, and one byte more is refused. The type error wins over the size error: for a
   * non-image neither the size nor the reader matters.
   */
  lemma GuardOrder(mimeType: string, size: nat, other: nat, a: ReadOutcome, b: ReadOutcome)
    ensures IMAGE_PREFIX <= mimeType && size <= MAX_FILE_SIZE ==>
              HandleFileSelect(Some(File(mimeType, size)), a) == HandleFileSelect(Some(File(mimeType, 0)), a)
    ensures IMAGE_PREFIX <= mimeType ==> HandleFileSelect(Some(File(mimeType, MAX_FILE_SIZE + 1)), a) == Failure(TOO_LARGE)
    ensures !(IMAGE_PREFIX <= mimeType) ==>
              HandleFileSelect(Some(File(mimeType, size)), a) == HandleFileSelect(Some(File(mimeType, other)), b)
    ensures HandleFileSelect(Some(File("text/plain", MAX_FILE_SIZE + 1)), a) == Failure(NOT_AN_IMAGE)
  {
    assert "text/plain"[0] != IMAGE_PREFIX[0];
  }

  /** The reader is consulted only for an accepted image: otherwise the outcome is the same for any read. */
  lemma ReadOnlyWhenAccepted(file: Option<File>, a: ReadOutcome, b: ReadOutcome)
    requires file.None? || !(IMAGE_PREFIX <= file.value.mimeType) || file.value.size > MAX_FILE_SIZE
    ensures HandleFileSelect(file, a) == HandleFileSelect(file, b)
  {
  }
}
