/**
 FileUploadService: the checks an uploaded file goes through, the name it
 is stored under and the URL it is served from. The MIME type finfo sniffs,
 uniqid(), the clock and the outcome of move_uploaded_file are inputs; the
 WebP conversion itself is left out, only the decision to attempt it is kept.
 */
module FileUpload {
  import opened Text
  import opened Wrappers
  import opened Http
  import opened Constants
  import opened Dates

  const UPLOAD_ERR_OK: int := 0

  /** The `$_FILES` entry: the upload error code, the size in bytes and the client's file name. */
  datatype File = File(error: int, size: int, name: string)

  /** What the service reads from the world: the sniffed MIME type, uniqid(), today, the upload root and whether the move succeeded. */
  datatype Env = Env(mime: string, uniqueId: string, today: Date, uploadRoot: string, moved: bool)

  /** The array uploadFile returns, plus whether a WebP copy was attempted. */
  datatype Stored = Stored(filename: string, path: string, url: string, size: int, mimeType: string, webp: bool)

  /** The characters the sanitiser keeps: `[a-zA-Z0-9_-]`. */
  predicate SafeChar(c: char) { IsAsciiLetter(c) || IsDigit(c) || c == '_' || c == '-' }

  predicate AllSafe(s: string) { forall i :: 0 <= i < |s| ==> SafeChar(s[i]) }

  function Underscores(k: nat): (u: string)
    ensures |u| == k && AllSafe(u)
    ensures forall i :: 0 <= i < k ==> u[i] == '_'
  {
    seq(k, i => '_')
  }

  /**
   `preg_replace('/[^a-zA-Z0-9_-]/', '_', $name)`: the pattern has no `u`
   flag, so it works on bytes and a character outside ASCII becomes one
   underscore per UTF-8 byte.
   */
  function Sanitize(s: string): (r: string)
    ensures AllSafe(r)
    ensures |r| == Utf8Len(s)
  {
    if |s| == 0 then ""
    else (if SafeChar(s[0]) then [s[0]] else Underscores(Utf8Width(s[0]))) + Sanitize(s[1..])
  }

  /** A name made of safe characters only is left as it is. */
  lemma {:induction false} SanitizeKeepsSafe(s: string)
    requires AllSafe(s)
    ensures Sanitize(s) == s
  {
    if |s| > 0 {
      SanitizeKeepsSafe(s[1..]);
    }
  }

  /** Sanitising twice is sanitising once. */
  lemma SanitizeIdempotent(s: string)
    ensures Sanitize(Sanitize(s)) == Sanitize(s)
  {
    SanitizeKeepsSafe(Sanitize(s));
  }

  /** Each safe character of the name is kept in place, counting positions in bytes. */
  lemma {:induction false} SanitizeKeepsSafePrefix(s: string, k: nat)
    requires k <= |s| && AllSafe(s[..k])
    ensures Sanitize(s)[..k] == s[..k]
  {
    if k > 0 {
      var t := s[1..][..k - 1];
      forall i | 0 <= i < |t| ensures SafeChar(t[i]) {
        assert t[i] == s[..k][i + 1];
      }
      SanitizeKeepsSafePrefix(s[1..], k - 1);
      assert SafeChar(s[..k][0]);
    }
  }

  /** The index of the last `c` in `s`, if any. */
  function LastIndexOf(s: string, c: char): (r: Option<nat>)
    ensures r.Some? ==> r.value < |s| && s[r.value] == c && forall j :: r.value < j < |s| ==> s[j] != c
    ensures r.None? ==> forall j :: 0 <= j < |s| ==> s[j] != c
  {
    if |s| == 0 then None
    else if s[|s| - 1] == c then Some(|s| - 1)
    else LastIndexOf(s[..|s| - 1], c)
  }

  /** `basename()`: what follows the last `/`. */
  function BaseName(path: string): (b: string)
    ensures forall j :: 0 <= j < |b| ==> b[j] != '/'
  {
    match LastIndexOf(path, '/')
    case None => path
    case Some(i) => path[i + 1..]
  }

  /** `pathinfo($name, PATHINFO_EXTENSION)`: after the last dot of the base name; null (empty) without a dot. */
  function Extension(name: string): (e: Option<string>)
  {
    var b := BaseName(name);
    match LastIndexOf(b, '.')
    case None => None
    case Some(i) => Some(b[i + 1..])
  }

  /** `pathinfo($name, PATHINFO_FILENAME)`: the base name up to its last dot. */
  function FileName(name: string): string {
    var b := BaseName(name);
    match LastIndexOf(b, '.')
    case None => b
    case Some(i) => b[..i]
  }

  /** The two parts pathinfo splits a name into make up its base name again. */
  lemma PathInfoSplits(name: string)
    ensures Extension(name).Some? ==> FileName(name) + "." + Extension(name).value == BaseName(name)
    ensures Extension(name).None? ==> FileName(name) == BaseName(name) && forall j :: 0 <= j < |FileName(name)| ==> FileName(name)[j] != '.'
    ensures Extension(name).Some? ==> forall j :: 0 <= j < |Extension(name).value| ==> Extension(name).value[j] != '.' && Extension(name).value[j] != '/'
  {
    var b := BaseName(name);
    match LastIndexOf(b, '.')
    case None =>
    case Some(i) =>
      assert b[..i] + "." + b[i + 1..] == b;
  }

  /** `$sanitizedName . '_' . uniqid() . '.' . $extension`; a missing extension reads as the empty string. */
  function StoredName(name: string, uniqueId: string): string {
    Sanitize(FileName(name)) + "_" + uniqueId + "." + Extension(name).GetOr("")
  }

  /** `strpos($mime, 'image/') === 0 && $mime !== 'image/webp'`. */
  predicate WantsWebP(mime: string) { StartsWith(mime, "image/") && mime != "image/webp" }

  function UploadFailed(): Outcome { Error("File upload failed", "UPLOAD_ERROR") }

  function TooLarge(): Outcome { Error("File too large", "FILE_TOO_LARGE") }

  function BadType(): Outcome { Error("Invalid file type", "INVALID_FILE_TYPE") }

  function SaveFailed(): Outcome { Error("Failed to save file", "UPLOAD_SAVE_ERROR") }

  /**
   FileUploadService::uploadFile. The checks run in order: the upload error
   code, then the size (a file of exactly the maximum passes), then the
   sniffed MIME type, then the move; the stored name is the sanitised base
   name, the unique id and the original extension, and the URL is the same
   name under `/uploads/<directory>/<Y>/<m>/`.
   */
  function UploadFile(file: File, directory: string, allowed: seq<string>, env: Env): (s: Step<Stored>)
    requires InRange(env.today)
    ensures file.error != UPLOAD_ERR_OK ==> s == Halt(UploadFailed())
    ensures file.error == UPLOAD_ERR_OK && file.size > MAX_UPLOAD_SIZE ==> s == Halt(TooLarge())
    ensures (file.error == UPLOAD_ERR_OK && file.size <= MAX_UPLOAD_SIZE
             && env.mime !in allowed) ==> s == Halt(BadType())
    ensures (file.error == UPLOAD_ERR_OK && file.size <= MAX_UPLOAD_SIZE
             && env.mime in allowed && !env.moved) ==> s == Halt(SaveFailed())
    ensures s.Next? <==> file.error == UPLOAD_ERR_OK && file.size <= MAX_UPLOAD_SIZE && env.mime in allowed && env.moved
    ensures s.Next? ==>
              && s.value.filename == StoredName(file.name, env.uniqueId)
              && s.value.url == "/uploads/" + directory + "/" + MonthPath(env.today) + s.value.filename
              && s.value.path == env.uploadRoot + directory + "/" + MonthPath(env.today) + s.value.filename
              && s.value.size == file.size && s.value.mimeType == env.mime
              && (s.value.webp <==> WantsWebP(env.mime))
  {
    if file.error != UPLOAD_ERR_OK then Halt(UploadFailed())
    else if file.size > MAX_UPLOAD_SIZE then Halt(TooLarge())
    else if env.mime !in allowed then Halt(BadType())
    else
      var filename := StoredName(file.name, env.uniqueId);
      var dir := directory + "/" + MonthPath(env.today);
      if !env.moved then Halt(SaveFailed())
      else Next(Stored(filename, env.uploadRoot + dir + filename, "/uploads/" + dir + filename, file.size, env.mime, WantsWebP(env.mime)))
  }

  /** FileUploadService::uploadImage: the image types, into `properties` unless told otherwise. */
  function UploadImage(file: File, env: Env, directory: string := "properties"): (s: Step<Stored>)
    requires InRange(env.today)
    ensures s.Next? ==> env.mime in ALLOWED_IMAGE_TYPES && s.value.mimeType == env.mime
    ensures s.Next? ==> StartsWith(s.value.url, "/uploads/" + directory + "/")
    ensures s.Halt? ==> s.out in {UploadFailed(), TooLarge(), BadType(), SaveFailed()}
  {
    var s := UploadFile(file, directory, ALLOWED_IMAGE_TYPES, env);
    if s.Halt? then s
    else
      UrlUnderDirectory(directory, MonthPath(env.today), s.value.filename);
      s
  }

  /** FileUploadService::uploadDocument: the document types, into `documents` unless told otherwise. */
  function UploadDocument(file: File, env: Env, directory: string := "documents"): (s: Step<Stored>)
    requires InRange(env.today)
    ensures s.Next? ==> env.mime in ALLOWED_DOCUMENT_TYPES && s.value.mimeType == env.mime
    ensures s.Next? ==> StartsWith(s.value.url, "/uploads/" + directory + "/")
    ensures s.Halt? ==> s.out in {UploadFailed(), TooLarge(), BadType(), SaveFailed()}
  {
    var s := UploadFile(file, directory, ALLOWED_DOCUMENT_TYPES, env);
    if s.Halt? then s
    else
      UrlUnderDirectory(directory, MonthPath(env.today), s.value.filename);
      s
  }

  /** A URL built under `/uploads/<directory>/` starts with that prefix. */
  lemma UrlUnderDirectory(directory: string, month: string, filename: string)
    ensures StartsWith("/uploads/" + directory + "/" + month + filename, "/uploads/" + directory + "/")
  {
    var prefix := "/uploads/" + directory + "/";
    assert (prefix + month + filename)[..|prefix|] == prefix;
  }

  /** A stored upload's file name is made only of safe characters up to the unique id, and the URL ends with it. */
  lemma StoredNameShape(file: File, directory: string, allowed: seq<string>, env: Env)
    requires InRange(env.today)
    requires UploadFile(file, directory, allowed, env).Next?
    ensures var st := UploadFile(file, directory, allowed, env).value;
            && AllSafe(st.filename[..Utf8Len(FileName(file.name))])
            && st.filename[Utf8Len(FileName(file.name))] == '_'
            && |st.url| >= |st.filename| && st.url[|st.url| - |st.filename|..] == st.filename
  {
    var st := UploadFile(file, directory, allowed, env).value;
    var san := Sanitize(FileName(file.name));
    assert st.filename[..|san|] == san;
    assert st.filename[|san|] == '_';
    var prefix := "/uploads/" + directory + "/" + MonthPath(env.today);
    assert st.url == prefix + st.filename;
    assert st.url[|st.url| - |st.filename|..] == st.filename;
  }

  /** One entry of `$_FILES['images']`, with what the upload service observes for it. */
  datatype Upload = Upload(file: File, env: Env)

  /** Whether every upload the loop tries (those sent without an error code) is stored. */
  predicate AllStored(uploads: seq<Upload>, directory: string)
    requires forall i :: 0 <= i < |uploads| ==> InRange(uploads[i].env.today)
  {
    forall i :: 0 <= i < |uploads| && uploads[i].file.error == UPLOAD_ERR_OK ==>
      UploadImage(uploads[i].file, uploads[i].env, directory).Next?
  }

  /** The number of uploads sent without an error code. */
  function Sent(uploads: seq<Upload>): nat {
    if |uploads| == 0 then 0
    else (if uploads[0].file.error == UPLOAD_ERR_OK then 1 else 0) + Sent(uploads[1..])
  }

  /**
   The `foreach ($_FILES['images'] ...)` loop: entries with an upload error
   are skipped, the others go through uploadImage, whose first failure ends
   the request; the URLs of the stored images, in order.
   */
  function UploadImages(uploads: seq<Upload>, directory: string): (s: Step<seq<string>>)
    requires forall i :: 0 <= i < |uploads| ==> InRange(uploads[i].env.today)
    ensures s.Halt? ==> s.out in {UploadFailed(), TooLarge(), BadType(), SaveFailed()}
    decreases |uploads|
  {
    if |uploads| == 0 then Next([])
    else
      var rest := UploadImages(uploads[1..], directory);
      if uploads[0].file.error != UPLOAD_ERR_OK then rest
      else
        var up := UploadImage(uploads[0].file, uploads[0].env, directory);
        if up.Halt? then Halt(up.out)
        else if rest.Halt? then Halt(rest.out)
        else Next([up.value.url] + rest.value)
  }

  /** The loop gets through exactly when every upload it tries is stored, and then answers one URL per such upload. */
  lemma {:induction false} UploadImagesStored(uploads: seq<Upload>, directory: string)
    requires forall i :: 0 <= i < |uploads| ==> InRange(uploads[i].env.today)
    ensures UploadImages(uploads, directory).Next? <==> AllStored(uploads, directory)
    ensures UploadImages(uploads, directory).Next? ==> |UploadImages(uploads, directory).value| == Sent(uploads)
  {
    if |uploads| > 0 {
      var tail := uploads[1..];
      assert forall i :: 1 <= i < |uploads| ==> uploads[i] == tail[i - 1];
      UploadImagesStored(tail, directory);
      assert AllStored(uploads, directory) <==>
        (uploads[0].file.error == UPLOAD_ERR_OK ==> UploadImage(uploads[0].file, uploads[0].env, directory).Next?)
        && AllStored(tail, directory);
    }
  }

  /** Every URL the loop answers lies under `/uploads/<directory>/`. */
  lemma {:induction false} UploadImagesUrls(uploads: seq<Upload>, directory: string)
    requires forall i :: 0 <= i < |uploads| ==> InRange(uploads[i].env.today)
    ensures UploadImages(uploads, directory).Next? ==>
              forall j :: 0 <= j < |UploadImages(uploads, directory).value| ==> StartsWith(UploadImages(uploads, directory).value[j], "/uploads/" + directory + "/")
  {
    if |uploads| > 0 {
      UploadImagesUrls(uploads[1..], directory);
    }
  }
}
