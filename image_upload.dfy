/** The client-side image check shared by the admin dashboard and the report
    form: the file's MIME type must be JPEG, PNG or WEBP, and its size at
    most 2 MB. The type is checked before the size. */
module ImageUpload {
  import opened Common

  /** The selected File: its `type` and its `size` in bytes. */
  datatype ImageFile = ImageFile(mimeType: string, size: int)

  const AllowedTypes: seq<string> := ["image/jpeg", "image/png", "image/webp"]

  /** 2 * 1024 * 1024 bytes. */
  const MaxImageBytes: int := 2 * 1024 * 1024

  /** The outcome of the checks, before the file is read. */
  datatype ImageCheck = NoFile | WrongType | TooLarge | Accepted

  /** `e.target.files && e.target.files[0]` gives `file`; no file returns
      early, then the type is checked, then the size. */
  function CheckImage(file: Option<ImageFile>): (r: ImageCheck)
    ensures r == Accepted <==>
      file.Some? && file.value.mimeType in AllowedTypes && file.value.size <= MaxImageBytes
    ensures r == NoFile <==> file.None?
    ensures r == TooLarge ==> file.Some? && file.value.size > MaxImageBytes
  {
    if file.None? then NoFile
    else if file.value.mimeType !in AllowedTypes then WrongType
    else if file.value.size > MaxImageBytes then TooLarge
    else Accepted
  }

  /** The type is checked first: a file of a wrong type is reported as such
      whatever its size, and a size problem is reported only for an allowed
      type. */
  lemma TypeIsCheckedFirst(f: ImageFile)
    ensures f.mimeType !in AllowedTypes ==> CheckImage(Some(f)) == WrongType
    ensures CheckImage(Some(f)) == TooLarge <==> f.mimeType in AllowedTypes && f.size > MaxImageBytes
  {
  }

  /** The limit is inclusive: a file of exactly 2097152 bytes passes, one
      byte more is too large. */
  lemma LimitIsInclusive(t: string)
    requires t in AllowedTypes
    ensures MaxImageBytes == 2097152
    ensures CheckImage(Some(ImageFile(t, 2097152))) == Accepted
    ensures CheckImage(Some(ImageFile(t, 2097153))) == TooLarge
  {
  }

  /** Exactly three MIME types pass, and the check is exact: "image/jpg" or
      "image/gif" do not. */
  lemma AllowedTypesAreExact(f: ImageFile)
    requires f.size <= MaxImageBytes
    ensures CheckImage(Some(f)) == Accepted <==>
      f.mimeType == "image/jpeg" || f.mimeType == "image/png" || f.mimeType == "image/webp"
  {
  }
}
