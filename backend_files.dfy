/**
 * The backend's string logic around images: which uploaded file names are
 * accepted (`allowed_file`), the storage name generated for an upload
 * (`upload_image_to_supabase`) and the storage name recovered from a public
 * URL when an image is deleted (`delete_image_from_supabase`).
 */
module Uploads {
  import opened Wrappers
  import opened Text

  /** `ALLOWED_EXTENSIONS`. */
  const AllowedExtensions: set<string> := {"png", "jpg", "jpeg", "gif", "webp"}

  /** `allowed_file`: the file name has a '.', and the text after the last one, lower-cased, is allowed. */
  function AllowedFile(filename: string): (allowed: bool)
    ensures allowed ==> '.' in filename && 3 <= |AfterLast(filename, '.')| <= 4
  {
    '.' in filename && Lower(AfterLast(filename, '.')) in AllowedExtensions
  }

  /** Where the last '.' of `filename` is, when there is one. */
  lemma LastDot(filename: string, i: int)
    requires 0 <= i < |filename| && filename[i] == '.' && '.' !in filename[i + 1..]
    ensures AfterLast(filename, '.') == filename[i + 1..]
  {
    assert filename == filename[..i] + ['.'] + filename[i + 1..];
    AfterLastOfJoin(filename[..i], '.', filename[i + 1..]);
  }

  /**
   * A file is allowed exactly when some '.' in its name is followed by a
   * dot-free text that lower-cases to an allowed extension.
   */
  lemma {:induction false} AllowedFileIff(filename: string)
    ensures AllowedFile(filename) <==>
            exists i :: 0 <= i < |filename| && filename[i] == '.' && '.' !in filename[i + 1..]
                        && Lower(filename[i + 1..]) in AllowedExtensions
  {
    if AllowedFile(filename) {
      var ext := AfterLast(filename, '.');
      var i := |filename| - |ext| - 1;
      assert filename[i + 1..] == ext;
    }
    if exists i :: 0 <= i < |filename| && filename[i] == '.' && '.' !in filename[i + 1..]
                   && Lower(filename[i + 1..]) in AllowedExtensions {
      var i :| 0 <= i < |filename| && filename[i] == '.' && '.' !in filename[i + 1..]
               && Lower(filename[i + 1..]) in AllowedExtensions;
      LastDot(filename, i);
    }
  }

  /** "a.PNG" and ".png" are accepted: case is ignored and the stem may be empty. */
  lemma AllowedFileAccepts()
    ensures AllowedFile("a.PNG") && AllowedFile(".png")
  {
    LastDot("a.PNG", 1);
    assert Lower("PNG") == "png";
    LastDot(".png", 0);
    assert Lower("png") == "png";
  }

  /** "png" has no '.', so it is refused. */
  lemma AllowedFileRejectsNoDot()
    ensures !AllowedFile("png")
  {
    assert "png"[0] != '.' && "png"[1] != '.' && "png"[2] != '.';
  }

  /** Only the last extension counts: "a.tar.gz" and "photo.png.exe" are refused. */
  lemma AllowedFileRejectsLastExtension()
    ensures !AllowedFile("a.tar.gz") && !AllowedFile("photo.png.exe")
  {
    LastDot("a.tar.gz", 5);
    assert |Lower("gz")| == 2;
    LastDot("photo.png.exe", 9);
    assert Lower("exe")[0] == 'e';
  }

  /** The lower-cased extension: `rsplit('.', 1)[1].lower()`. */
  function Extension(filename: string): (ext: string)
    requires '.' in filename
    ensures '.' !in ext
  {
    var e := AfterLast(filename, '.');
    assert forall k :: 0 <= k < |e| ==> Lower(e)[k] != '.' by {
      forall k | 0 <= k < |e| ensures Lower(e)[k] != '.' {
        assert e[k] in e;
      }
    }
    Lower(e)
  }

  /** Lower-casing twice is lower-casing once. */
  lemma LowerIdempotent(s: string)
    ensures Lower(Lower(s)) == Lower(s)
  {
    assert forall k :: 0 <= k < |s| ==> Lower(Lower(s))[k] == Lower(s)[k];
  }

  /** A `uuid.uuid4().hex`: 32 lower-case hexadecimal digits. */
  predicate IsHexToken(hex: string) {
    |hex| == 32 && forall k :: 0 <= k < |hex| ==> hex[k] in "0123456789abcdef"
  }

  /** `post_id` with each '/' replaced by '_', so that it names one storage object, not a folder. */
  function SafeSegment(postId: string): (r: string)
    ensures |r| == |postId| && '/' !in r
    ensures '/' !in postId ==> r == postId
  {
    seq(|postId|, k requires 0 <= k < |postId| => if postId[k] == '/' then '_' else postId[k])
  }

  /** The storage name of an uploaded image: `{post_id}_{hex}.{extension}`, with `post_id` made safe. */
  function UploadName(postId: string, hex: string, filename: string): (name: string)
    requires '.' in filename
    ensures |name| == |postId| + |hex| + 2 + |AfterLast(filename, '.')|
    ensures name[..|postId|] == SafeSegment(postId) && name[|postId|] == '_'
  {
    SafeSegment(postId) + "_" + hex + "." + Extension(filename)
  }

  /** The storage name exactly as the backend builds it: `post_id` is used as it is. */
  function UploadNameAsWritten(postId: string, hex: string, filename: string): (name: string)
    requires '.' in filename
    ensures |name| == |postId| + |hex| + 2 + |AfterLast(filename, '.')|
    ensures name[..|postId|] == postId && name[|postId|] == '_'
  {
    postId + "_" + hex + "." + Extension(filename)
  }

  /** For a `post_id` without '/', the safe name and the name as written coincide. */
  lemma UploadNameAgreesWithoutSlash(postId: string, hex: string, filename: string)
    requires '.' in filename && '/' !in postId
    ensures UploadName(postId, hex, filename) == UploadNameAsWritten(postId, hex, filename)
  {
  }

  /**
   * The generated name keeps the upload's extension, so it is itself an
   * allowed file name, and it starts with the post's id.
   */
  lemma UploadNameKeepsExtension(postId: string, hex: string, filename: string)
    requires AllowedFile(filename) && IsHexToken(hex)
    ensures var name := UploadName(postId, hex, filename);
            && '.' in name
            && Extension(name) == Extension(filename)
            && AllowedFile(name)
            && name[..|postId| + 1] == SafeSegment(postId) + "_"
  {
    var ext := Extension(filename);
    var stem := SafeSegment(postId) + "_" + hex;
    var name := UploadName(postId, hex, filename);
    assert name == stem + ['.'] + ext;
    AfterLastOfJoin(stem, '.', ext);
    assert name[|stem|] == '.';
    LowerIdempotent(AfterLast(filename, '.'));
    assert name[..|postId| + 1] == SafeSegment(postId) + "_";
  }

  /** A hexadecimal token holds neither '/' nor '.'. */
  lemma HexTokenIsPlain(hex: string)
    requires IsHexToken(hex)
    ensures '/' !in hex && '.' !in hex
  {
    forall k | 0 <= k < |hex| ensures hex[k] != '/' && hex[k] != '.' {
      assert hex[k] in "0123456789abcdef";
    }
  }

  /** No allowed extension holds a '/'. */
  lemma AllowedExtensionIsPlain(ext: string)
    requires ext in AllowedExtensions
    ensures '/' !in ext && |ext| >= 3
  {
    if ext == "png" || ext == "jpg" || ext == "gif" {
      assert ext[0] != '/' && ext[1] != '/' && ext[2] != '/';
    } else {
      assert ext[0] != '/' && ext[1] != '/' && ext[2] != '/' && ext[3] != '/';
    }
  }

  /** The generated name holds no '/' and is not empty. */
  lemma UploadNameIsOneSegment(postId: string, hex: string, filename: string)
    requires AllowedFile(filename) && IsHexToken(hex)
    ensures var name := UploadName(postId, hex, filename); '/' !in name && |name| > 0
  {
    var ext := Extension(filename);
    AllowedExtensionIsPlain(ext);
    HexTokenIsPlain(hex);
    var name := UploadName(postId, hex, filename);
    assert name == SafeSegment(postId) + "_" + hex + "." + ext;
  }

  /**
   * The storage name `delete_image_from_supabase` removes: nothing for a
   * missing or empty URL, otherwise the text after the last '/'.
   */
  function StorageFilename(url: Option<string>): (name: Option<string>)
    ensures name.None? <==> url.None? || url.value == ""
    ensures name.Some? ==> '/' !in name.value && |name.value| <= |url.value|
                           && url.value[|url.value| - |name.value|..] == name.value
    ensures name.Some? && |name.value| < |url.value| ==>
              url.value[|url.value| - |name.value| - 1] == '/'
  {
    if url.None? || url.value == "" then None else Some(AfterLast(url.value, '/'))
  }

  /** The public URL of a stored object: the bucket's public prefix, which ends with '/', then the name. */
  predicate IsBucketPrefix(bucketUrl: string) {
    |bucketUrl| > 0 && bucketUrl[|bucketUrl| - 1] == '/'
  }

  /** Deleting by the public URL of an uploaded image removes that very object. */
  lemma StorageFilenameRoundTrip(bucketUrl: string, postId: string, hex: string, filename: string)
    requires IsBucketPrefix(bucketUrl) && AllowedFile(filename) && IsHexToken(hex)
    ensures StorageFilename(Some(bucketUrl + UploadName(postId, hex, filename)))
            == Some(UploadName(postId, hex, filename))
  {
    var name := UploadName(postId, hex, filename);
    UploadNameIsOneSegment(postId, hex, filename);
    var head := bucketUrl[..|bucketUrl| - 1];
    assert bucketUrl + name == head + ['/'] + name;
    AfterLastOfJoin(head, '/', name);
  }

  /**
   * As written, a `post_id` holding '/' makes the upload land in a folder;
   * deleting by the URL's last segment then targets another name, and the
   * uploaded object is never removed.
   */
  lemma UploadNameAsWrittenLosesObject(bucketUrl: string, hex: string)
    requires IsBucketPrefix(bucketUrl) && IsHexToken(hex)
    ensures var name := UploadNameAsWritten("a/b", hex, "x.png");
            && StorageFilename(Some(bucketUrl + name)) == Some("b_" + hex + ".png")
            && StorageFilename(Some(bucketUrl + name)) != Some(name)
  {
    var tail := "b_" + hex + ".png";
    var name := UploadNameAsWritten("a/b", hex, "x.png");
    AsWrittenNameOfSlashedId(hex);
    assert bucketUrl + name == (bucketUrl + "a") + ['/'] + tail;
    AfterLastOfJoin(bucketUrl + "a", '/', tail);
    assert |tail| < |name|;
  }

  /** The name as written for post "a/b" and file "x.png" is "a/" followed by a '/'-free tail. */
  lemma AsWrittenNameOfSlashedId(hex: string)
    requires IsHexToken(hex)
    ensures UploadNameAsWritten("a/b", hex, "x.png") == "a/" + ("b_" + hex + ".png")
    ensures '/' !in "b_" + hex + ".png"
  {
    ExtensionOfPng();
    HexTokenIsPlain(hex);
    var tail := "b_" + hex + ".png";
    assert forall k :: 0 <= k < |tail| ==> tail[k] != '/';
  }

  /** The extension of "x.png" is "png". */
  lemma ExtensionOfPng()
    ensures Extension("x.png") == "png"
  {
    LastDot("x.png", 1);
    assert Lower("png")[..] == "png";
  }
}
