/** The profile-photo picker: which files it accepts, and what an accepted file changes. */
module ImageUpload {
  import opened Wrappers
  import opened Strings

  /** The 5 MiB limit, in bytes. */
  const MaxImageBytes: nat := 5 * 1024 * 1024

  const ImageMimePrefix: string := "image/"

  /** The selected file as far as the checks see it: its size and MIME type. */
  datatype File = File(size: nat, mimeType: string)

  datatype UploadError = TooLarge | NotAnImage

  /** The checks of `handleImageUpload`, size first, then type. */
  function CheckFile(f: File): (r: Option<UploadError>)
    ensures r.None? <==> f.size <= MaxImageBytes && StartsWith(f.mimeType, ImageMimePrefix)
    ensures r == Some(TooLarge) <==> f.size > MaxImageBytes
    ensures r == Some(NotAnImage) <==> f.size <= MaxImageBytes && !StartsWith(f.mimeType, ImageMimePrefix)
  {
    if f.size > MaxImageBytes then Some(TooLarge)
    else if !StartsWith(f.mimeType, ImageMimePrefix) then Some(NotAnImage)
    else None
  }

  /** A file of exactly 5 MiB passes the size check; one byte more does not. */
  lemma SizeLimitIsInclusive(mimeType: string)
    ensures CheckFile(File(5 * 1024 * 1024, mimeType)) != Some(TooLarge)
    ensures CheckFile(File(5 * 1024 * 1024 + 1, mimeType)) == Some(TooLarge)
    ensures CheckFile(File(5 * 1024 * 1024, "image/png")).None?
  {
    assert StartsWith("image/png", ImageMimePrefix);
  }

  /** An oversized file is reported as too large even when it is not an image. */
  lemma SizeCheckComesFirst(f: File)
    requires f.size > MaxImageBytes && !StartsWith(f.mimeType, ImageMimePrefix)
    ensures CheckFile(f) == Some(TooLarge)
  {
  }

  /** What one change event did: nothing selected, a rejection, or a photo handed up. */
  datatype UploadOutcome = NoFile | Rejected(error: UploadError) | Accepted(photo: string)

  class ImageUploader {
    /** The preview shown beside the button. */
    var preview: Option<string>

    constructor ()
      ensures preview == None
    {
      preview := None;
    }

    /**
     * `handleImageUpload`. `dataUrl` is what the file reader produces for the
     * file; an `Accepted` outcome is the `setProfilePhoto` call, and only then
     * does the preview change.
     */
    method HandleImageUpload(file: Option<File>, dataUrl: string) returns (outcome: UploadOutcome)
      modifies this
      ensures file.None? ==> outcome == NoFile
      ensures file.Some? && CheckFile(file.value).Some? ==> outcome == Rejected(CheckFile(file.value).value)
      ensures file.Some? && CheckFile(file.value).None? ==> outcome == Accepted(dataUrl)
      ensures preview == if outcome.Accepted? then Some(dataUrl) else old(preview)
    {
      if file.None? {
        return NoFile;
      }
      var f := file.value;
      if f.size > MaxImageBytes {
        return Rejected(TooLarge);
      }
      if !StartsWith(f.mimeType, ImageMimePrefix) {
        return Rejected(NotAnImage);
      }
      preview := Some(dataUrl);
      outcome := Accepted(dataUrl);
    }
  }
}
