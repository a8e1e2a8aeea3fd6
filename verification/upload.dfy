/** The upload configuration: which media types are accepted, the
    directory category a type is filed under, the public URL of a stored
    file, and the size and count limits of one upload request. */
module Upload {
  import opened Wrappers
  import opened Strings

  /** The four upload directories. */
  datatype Category = Images | Videos | Audio | Files

  function CategoryName(c: Category): (r: string)
    ensures '/' !in r && r != []
  {
    match c
    case Images => "images"
    case Videos => "videos"
    case Audio => "audio"
    case Files => "files"
  }

  /** Reads a directory name back. */
  function ParseCategory(s: string): (r: Option<Category>)
    ensures r.Some? ==> CategoryName(r.value) == s
  {
    if s == "images" then Some(Images)
    else if s == "videos" then Some(Videos)
    else if s == "audio" then Some(Audio)
    else if s == "files" then Some(Files)
    else None
  }

  /** `getFileCategory`: filed by the top-level media type; anything that
      is not an image, video or audio type goes under "files". */
  function GetFileCategory(mimetype: string): (r: Category)
    ensures r == Images <==> StartsWith(mimetype, "image/")
    ensures r == Videos <==> StartsWith(mimetype, "video/") && !StartsWith(mimetype, "image/")
    ensures r == Audio <==> StartsWith(mimetype, "audio/") && !StartsWith(mimetype, "image/")
                            && !StartsWith(mimetype, "video/")
    ensures r == Files <==> !StartsWith(mimetype, "image/") && !StartsWith(mimetype, "video/")
                            && !StartsWith(mimetype, "audio/")
  {
    if StartsWith(mimetype, "image/") then Images
    else if StartsWith(mimetype, "video/") then Videos
    else if StartsWith(mimetype, "audio/") then Audio
    else Files
  }

  /** The message type a file of the category is sent as. */
  function CategoryMessageType(c: Category): string {
    match c
    case Images => "image"
    case Videos => "video"
    case Audio => "audio"
    case Files => "file"
  }

  /** The file multer hands to a handler: its media type, the name it is
      stored under, the name it was uploaded with and its size in bytes. */
  datatype StoredFile = StoredFile(mimetype: string, filename: string, originalName: string, size: nat)

  /** The media types `fileFilter` lets through. */
  const AllowedTypes: seq<string> := [
    "image/jpeg", "image/jpg", "image/png", "image/gif", "image/webp",
    "video/mp4", "video/mpeg", "video/quicktime", "video/webm",
    "audio/mpeg", "audio/wav", "audio/ogg", "audio/aac", "audio/webm",
    "application/pdf",
    "application/msword",
    "application/vnd.openxmlformats-officedocument.wordprocessingml.document",
    "application/vnd.ms-excel",
    "application/vnd.openxmlformats-officedocument.spreadsheetml.sheet",
    "application/vnd.ms-powerpoint",
    "application/vnd.openxmlformats-officedocument.presentationml.presentation",
    "text/plain",
    "application/zip",
    "application/x-zip-compressed"]

  datatype FilterResult = Accept | Reject(error: string)

  /** `fileFilter`: exact membership in the allow-list. */
  function FileFilter(mimetype: string): (r: FilterResult)
    ensures r.Accept? <==> mimetype in AllowedTypes
    ensures r.Reject? ==> r.error == "File type " + mimetype + " is not allowed"
  {
    if mimetype in AllowedTypes then Accept else Reject("File type " + mimetype + " is not allowed")
  }

  /** Every document type, allowed or not, is filed under "files": an
      `application/` or `text/` type starts with none of the media
      prefixes. */
  lemma DocumentTypesAreFiles(mimetype: string)
    requires StartsWith(mimetype, "application/") || StartsWith(mimetype, "text/")
    ensures GetFileCategory(mimetype) == Files
  {
    if StartsWith(mimetype, "application/") {
      if StartsWith(mimetype, "image/") { PrefixesAgree(mimetype, "image/", "application/"); }
      if StartsWith(mimetype, "video/") { PrefixesAgree(mimetype, "video/", "application/"); }
      assert mimetype[1] == "application/"[1] == 'p';
    } else {
      if StartsWith(mimetype, "image/") { PrefixesAgree(mimetype, "text/", "image/"); }
      if StartsWith(mimetype, "video/") { PrefixesAgree(mimetype, "text/", "video/"); }
      if StartsWith(mimetype, "audio/") { PrefixesAgree(mimetype, "text/", "audio/"); }
    }
  }

  // ----- getFileUrl -----

  const UrlPrefix := "/api/media/files/"

  /** `getFileUrl`: `/api/media/files/<category>/<filename>`. */
  function GetFileUrl(filename: string, c: Category): (r: string)
    ensures StartsWith(r, UrlPrefix)
    ensures |r| == |UrlPrefix| + |CategoryName(c)| + 1 + |filename|
  {
    UrlPrefix + CategoryName(c) + "/" + filename
  }

  /** Reads a file URL back into its category and file name. */
  function ParseFileUrl(url: string): Option<(Category, string)> {
    if !StartsWith(url, UrlPrefix) then None
    else
      var rest := url[|UrlPrefix|..];
      var i := IndexOf(rest, '/');
      if i == |rest| then None
      else
        var c := ParseCategory(rest[..i]);
        if c.None? then None else Some((c.value, rest[i + 1..]))
  }

  /** The URL of a stored file names its directory and file, whatever the
      file name holds. */
  lemma FileUrlRoundTrip(filename: string, c: Category)
    ensures ParseFileUrl(GetFileUrl(filename, c)) == Some((c, filename))
  {
    var name := CategoryName(c);
    var rest := GetFileUrl(filename, c)[|UrlPrefix|..];
    assert rest == name + "/" + filename;
    IndexOfAfter(name, '/', filename);
    assert rest[..|name|] == name;
    assert rest[|name| + 1..] == filename;
  }

  // ----- limits -----

  /** At most 50 MiB per file and one file per request. */
  const MaxFileSize := 50 * 1024 * 1024
  const MaxFiles := 1

  /** The media type and byte size of an uploaded part. */
  datatype FilePart = FilePart(mimetype: string, size: nat)

  /** An upload request passes the filter and the limits. */
  predicate Admits(parts: seq<FilePart>) {
    && |parts| <= MaxFiles
    && forall i :: 0 <= i < |parts| ==> FileFilter(parts[i].mimetype).Accept? && parts[i].size <= MaxFileSize
  }

  /** A request is admitted exactly when it carries at most one file, of an
      allowed type and at most 52428800 bytes. */
  lemma AdmitsIffOneAllowedFile(parts: seq<FilePart>)
    ensures Admits(parts) <==>
              parts == [] || (|parts| == 1 && parts[0].mimetype in AllowedTypes && parts[0].size <= 52428800)
  {
  }
}
