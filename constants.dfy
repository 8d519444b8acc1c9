/** The constant tables of the service: user types and the accepted upload MIME types. */
module Constants {
  import opened Common

  /** `userTypes`: the value the auth gate treats as "every role", and the two role tags. */
  const USER_TYPE_ALL := "All"
  const USER_TYPE_ADMIN := "Admin"
  const USER_TYPE_CLIENT := "Client"

  /** `S3Folders.profilePics`. */
  const PROFILE_PICS_FOLDER := "profilePics"

  /** `imgTypeToExtension`, in declaration order. */
  const IMAGE_TYPE_EXTENSIONS: seq<(string, string)> := [
    ("image/jpeg", "jpg"),
    ("image/png", "png"),
    ("image/jpg", "jpg"),
    ("image/svg", "svg"),
    ("image/svg+xml", "svg+xml")
  ]

  /** `docTypeToExtension`, in declaration order. */
  const DOC_TYPE_EXTENSIONS: seq<(string, string)> := [
    ("text/plain", "txt"),
    ("application/pdf", "pdf"),
    ("application/msword", "doc"),
    ("application/vnd.ms-excel", "xls"),
    ("application/vnd.ms-powerpoint", "ppt"),
    ("application/vnd.openxmlformats-officedocument.spreadsheetml.sheet", "xlsx"),
    ("application/vnd.openxmlformats-officedocument.wordprocessingml.document", "docx"),
    ("application/vnd.openxmlformats-officedocument.presentationml.presentation", "pptx")
  ]

  /** `Object.keys` of a table: its MIME types in declaration order. */
  function Keys(table: seq<(string, string)>): (keys: seq<string>)
    ensures |keys| == |table|
    ensures forall i :: 0 <= i < |table| ==> keys[i] == table[i].0
  {
    seq(|table|, i requires 0 <= i < |table| => table[i].0)
  }

  /** The extension a table gives a MIME type (first entry wins, as object keys are unique). */
  function ExtensionOf(table: seq<(string, string)>, mime: string): (ext: Option<string>)
    ensures ext.None? <==> mime !in Keys(table)
    ensures ext.Some? ==> exists i :: 0 <= i < |table| && table[i] == (mime, ext.value)
  {
    if |table| == 0 then None
    else if table[0].0 == mime then Some(table[0].1)
    else
      var rest := ExtensionOf(table[1..], mime);
      assert Keys(table) == [table[0].0] + Keys(table[1..]);
      assert rest.Some? ==> exists i :: 0 <= i < |table| && table[i] == (mime, rest.value) by {
        if rest.Some? {
          var i :| 0 <= i < |table[1..]| && table[1..][i] == (mime, rest.value);
          assert table[i + 1] == (mime, rest.value);
        }
      }
      rest
  }

  /**
    `fileTypes`: thirteen distinct MIME types, the five image types first,
    and exactly the keys of the two tables.
  */
  function FileTypes(): (types: seq<string>)
    ensures |types| == 13 && Distinct(types)
    ensures types[..5] == Keys(IMAGE_TYPE_EXTENSIONS)
    ensures forall mime :: mime in types <==> mime in Keys(IMAGE_TYPE_EXTENSIONS) || mime in Keys(DOC_TYPE_EXTENSIONS)
  {
    var images := Keys(IMAGE_TYPE_EXTENSIONS);
    var docs := Keys(DOC_TYPE_EXTENSIONS);
    ImageKeys();
    DocKeys();
    TablesDisjoint();
    DistinctConcat(images, docs);
    images + docs
  }

  predicate Distinct(xs: seq<string>) {
    forall i, j :: 0 <= i < j < |xs| ==> xs[i] != xs[j]
  }

  /** The image table's keys: five distinct types. */
  lemma ImageKeys()
    ensures Keys(IMAGE_TYPE_EXTENSIONS) == ["image/jpeg", "image/png", "image/jpg", "image/svg", "image/svg+xml"]
    ensures Distinct(Keys(IMAGE_TYPE_EXTENSIONS))
  {
  }

  /** The document table's keys: eight distinct types. */
  lemma DocKeys()
    ensures Keys(DOC_TYPE_EXTENSIONS) == [
      "text/plain", "application/pdf", "application/msword",
      "application/vnd.ms-excel", "application/vnd.ms-powerpoint",
      "application/vnd.openxmlformats-officedocument.spreadsheetml.sheet",
      "application/vnd.openxmlformats-officedocument.wordprocessingml.document",
      "application/vnd.openxmlformats-officedocument.presentationml.presentation"]
    ensures Distinct(Keys(DOC_TYPE_EXTENSIONS))
  {
  }

  /** No MIME type is in both tables. */
  lemma TablesDisjoint()
    ensures forall i, j :: 0 <= i < 5 && 0 <= j < 8 ==> Keys(IMAGE_TYPE_EXTENSIONS)[i] != Keys(DOC_TYPE_EXTENSIONS)[j]
  {
    ImageKeys();
    DocKeys();
  }

  /** Two distinct lists with no common element join into a distinct list. */
  lemma DistinctConcat(a: seq<string>, b: seq<string>)
    requires Distinct(a) && Distinct(b)
    requires forall i, j :: 0 <= i < |a| && 0 <= j < |b| ==> a[i] != b[j]
    ensures Distinct(a + b)
  {
    var c := a + b;
    forall i, j | 0 <= i < j < |c| ensures c[i] != c[j] {
      if j < |a| {
        assert c[i] == a[i] && c[j] == a[j];
      } else if i >= |a| {
        assert c[i] == b[i - |a|] && c[j] == b[j - |a|];
      } else {
        assert c[i] == a[i] && c[j] == b[j - |a|];
      }
    }
  }

  /** Both spellings of JPEG map to the same extension. */
  lemma JpegSpellingsAgree()
    ensures ExtensionOf(IMAGE_TYPE_EXTENSIONS, "image/jpeg") == Some("jpg")
    ensures ExtensionOf(IMAGE_TYPE_EXTENSIONS, "image/jpg") == Some("jpg")
  {
  }
}
