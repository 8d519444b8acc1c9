/**
  The upload middleware's three rules: which files it accepts, where it puts
  them, and the name it stores them under. The UUID is a parameter.
*/
module Upload {
  import opened Common
  import opened Constants

  const INVALID_FILE := ApiError(400, "Invalid file or data")
  const VERCEL := "vercel"

  /** Length of a textual UUID, which `uuidv4()` always produces. */
  const UUID_LENGTH := 36

  datatype FilterDecision = Accept | Reject(error: ApiError)

  /** `fileFilter`: accept a file whose MIME type is in `fileTypes`; otherwise a 400 ApiError. */
  function FileFilter(mimetype: string): (d: FilterDecision)
    ensures d.Accept? <==> mimetype in FileTypes()
    ensures d.Reject? ==> d.error == INVALID_FILE
  {
    if mimetype in FileTypes() then Accept else Reject(INVALID_FILE)
  }

  /** Exactly the MIME types of the two extension tables are accepted, so every accepted file has an extension. */
  lemma AcceptedHaveExtensions(mimetype: string)
    ensures FileFilter(mimetype).Accept? <==>
              ExtensionOf(IMAGE_TYPE_EXTENSIONS, mimetype).Some? || ExtensionOf(DOC_TYPE_EXTENSIONS, mimetype).Some?
  {
  }

  /** Both JPEG spellings and PDF are accepted; a GIF or a missing subtype is refused. */
  lemma FilterExamples()
    ensures FileFilter("image/jpeg").Accept? && FileFilter("image/jpg").Accept?
    ensures FileFilter("application/pdf").Accept?
    ensures FileFilter("image/gif") == Reject(INVALID_FILE)
    ensures FileFilter("image") == Reject(INVALID_FILE)
  {
    var images := Keys(IMAGE_TYPE_EXTENSIONS);
    var docs := Keys(DOC_TYPE_EXTENSIONS);
    ImageKeys();
    DocKeys();
    assert images[0] == "image/jpeg" && images[2] == "image/jpg" && docs[1] == "application/pdf";
    NotAKey(images, "image/gif");
    NotAKey(docs, "image/gif");
    NotAKey(images, "image");
    NotAKey(docs, "image");
  }

  lemma NotAKey(keys: seq<string>, mime: string)
    requires forall i :: 0 <= i < |keys| ==> keys[i] != mime
    ensures mime !in keys
  {
  }

  /** The upload directory: "/tmp" on Vercel, "./temp" everywhere else. */
  function Destination(nodeEnv: Option<string>): (dir: string)
    ensures nodeEnv == Some(VERCEL) ==> dir == "/tmp"
    ensures nodeEnv != Some(VERCEL) ==> dir == "./temp"
  {
    if nodeEnv == Some(VERCEL) then "/tmp" else "./temp"
  }

  /** The stored file name: the original name, a dash and the UUID. */
  function StoredName(originalName: string, uuid: string): (name: string)
    ensures |name| == |originalName| + 1 + |uuid|
    ensures name[..|originalName|] == originalName
    ensures name[|originalName|] == '-'
    ensures name[|originalName| + 1..] == uuid
  {
    originalName + "-" + uuid
  }

  /** The original name recovered from a stored name: everything before the dash that precedes the UUID. */
  function OriginalName(stored: string): (original: Option<string>)
    ensures original.Some? ==> |original.value| + 1 + UUID_LENGTH == |stored|
  {
    if |stored| > UUID_LENGTH && stored[|stored| - UUID_LENGTH - 1] == '-' then
      Some(stored[..|stored| - UUID_LENGTH - 1])
    else None
  }

  /** Because a UUID has a fixed length, the stored name determines the original name, whatever either contains. */
  lemma OriginalNameRoundTrip(originalName: string, uuid: string)
    requires |uuid| == UUID_LENGTH
    ensures OriginalName(StoredName(originalName, uuid)) == Some(originalName)
  {
    var s := StoredName(originalName, uuid);
    assert |s| - UUID_LENGTH - 1 == |originalName|;
  }
}
