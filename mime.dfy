/**
 * `getMimeFromFilename`, which the user and the admin file controllers
 * carry in identical copies: the content type guessed from a file name's
 * extension.
 */
module Mime {
  import opened Text

  const OCTET_STREAM := "application/octet-stream"

  /** The extension table of `getMimeFromFilename`. */
  const MIME_TYPES: map<string, string> := map[
    "jpg" := "image/jpeg", "jpeg" := "image/jpeg", "png" := "image/png",
    "gif" := "image/gif", "webp" := "image/webp", "svg" := "image/svg+xml",
    "bmp" := "image/bmp", "ico" := "image/x-icon",
    "mp4" := "video/mp4", "webm" := "video/webm", "ogg" := "video/ogg",
    "mov" := "video/quicktime", "avi" := "video/x-msvideo", "mkv" := "video/x-matroska",
    "mp3" := "audio/mpeg", "wav" := "audio/wav", "flac" := "audio/flac", "aac" := "audio/aac",
    "pdf" := "application/pdf",
    "doc" := "application/msword",
    "docx" := "application/vnd.openxmlformats-officedocument.wordprocessingml.document",
    "xls" := "application/vnd.ms-excel",
    "xlsx" := "application/vnd.openxmlformats-officedocument.spreadsheetml.sheet",
    "ppt" := "application/vnd.ms-powerpoint",
    "pptx" := "application/vnd.openxmlformats-officedocument.presentationml.presentation",
    "zip" := "application/zip", "rar" := "application/x-rar-compressed",
    "7z" := "application/x-7z-compressed", "tar" := "application/x-tar",
    "txt" := "text/plain", "csv" := "text/csv", "json" := "application/json",
    "xml" := "application/xml", "html" := "text/html", "css" := "text/css",
    "js" := "text/javascript"
  ]

  /** `getMimeFromFilename`: the table entry of the lower-cased text after the last dot, or the octet-stream type. */
  function MimeFromFilename(filename: string): (r: string)
    ensures filename == "" ==> r == OCTET_STREAM
  {
    if filename == "" then OCTET_STREAM
    else
      var ext := Lower(AfterLast(filename, '.'));
      if ext in MIME_TYPES then MIME_TYPES[ext] else OCTET_STREAM
  }

  /** Every answer is octet-stream or one of the listed types. */
  lemma MimeIsListed(filename: string)
    ensures MimeFromFilename(filename) == OCTET_STREAM || MimeFromFilename(filename) in MIME_TYPES.Values
  {
  }

  /** A name `stem.ext` gets the type of `ext` in any letter case; the stem may hold dots of its own. */
  lemma {:induction false} MimeOfExtension(stem: string, ext: string)
    requires forall i | 0 <= i < |ext| :: ext[i] != '.'
    ensures MimeFromFilename(stem + "." + ext) == if Lower(ext) in MIME_TYPES then MIME_TYPES[Lower(ext)] else OCTET_STREAM
  {
    var name := stem + "." + ext;
    var k := LastIndexOfChar(name, '.');
    forall i | |stem| < i < |name|
      ensures name[i] != '.'
    {
      assert name[i] == ext[i - |stem| - 1];
    }
    assert name[|stem|] == '.';
    assert k == |stem|;
    assert AfterLast(name, '.') == ext by { assert name[k + 1..] == ext; }
  }

  /** The type depends on the name only up to letter case. */
  lemma MimeIgnoresCase(filename: string)
    ensures MimeFromFilename(Lower(filename)) == MimeFromFilename(filename)
  {
    AfterLastUnderLower(filename);
    LowerTwice(AfterLast(filename, '.'));
  }

  lemma LowerTwice(s: string)
    ensures Lower(Lower(s)) == Lower(s)
  {
  }

  /** The text after the last dot of the lower-cased name is the lower-cased text after the last dot. */
  lemma AfterLastUnderLower(s: string)
    ensures AfterLast(Lower(s), '.') == Lower(AfterLast(s, '.'))
  {
    LastDotUnderLower(s);
    var k := LastIndexOfChar(s, '.');
    if k >= 0 {
      assert Lower(s)[k + 1..] == Lower(s[k + 1..]);
    }
  }

  /** Lower-casing produces no dot and removes none, so the last dot stays where it was. */
  lemma {:induction false} LastDotUnderLower(s: string)
    ensures LastIndexOfChar(Lower(s), '.') == LastIndexOfChar(s, '.')
  {
    if s != [] {
      assert Lower(s)[..|s| - 1] == Lower(s[..|s| - 1]);
      LastDotUnderLower(s[..|s| - 1]);
    }
  }
}
