/**
 Content classification of one file: the extension taken from its path, whether it is
 gzip-compressed before upload, the MIME type, and the header set sent with the upload.
 */
module Classify {

  /** Index of the last occurrence of `c` in `s`, or -1 when there is none
      (Go's `strings.LastIndex` with a one-character separator). */
  function LastIndexOf(s: string, c: char): (r: int)
    ensures -1 <= r < |s|
    ensures r >= 0 ==> s[r] == c
    ensures forall j :: r < j < |s| ==> s[j] != c
    ensures r == -1 <==> c !in s
  {
    if |s| == 0 then -1
    else if s[|s| - 1] == c then |s| - 1
    else LastIndexOf(s[..|s| - 1], c)
  }

  /** The "suffix" the worker classifies on: everything after the last '.' of the whole
      path. With no '.' at all, the whole path is returned; a '.' inside a directory name
      counts like any other. */
  function Suffix(path: string): (r: string)
    ensures '.' !in r
    ensures |r| <= |path| && r == path[|path| - |r|..]
    ensures '.' in path ==> |r| < |path| && path[|path| - |r| - 1] == '.'
    ensures '.' !in path ==> r == path
  {
    path[LastIndexOf(path, '.') + 1..]
  }

  /** Appending `"." + ext` to any path makes `ext` its suffix, whatever dots the prefix holds. */
  lemma SuffixOfExtension(prefix: string, ext: string)
    requires '.' !in ext
    ensures Suffix(prefix + "." + ext) == ext
  {
    var path := prefix + "." + ext;
    var r := Suffix(path);
    var dot := |path| - |ext| - 1;
    assert path[dot] == '.';
    assert path[dot + 1..] == ext;
    assert '.' !in path[dot + 1..];
  }

  /** The already-compressed image suffixes that are uploaded as they are. */
  const ImageSuffixes: set<string> := {"jpg", "gif", "png", "JPG", "GIF", "PNG"}

  /** The compression gate: every suffix except the six image ones, compared case-sensitively. */
  function ShouldCompress(suffix: string): (r: bool)
    ensures r <==> suffix !in ImageSuffixes
  {
    suffix != "jpg" && suffix != "gif" && suffix != "png" && suffix != "JPG" && suffix != "GIF" && suffix != "PNG"
  }

  /** Mixed-case image suffixes are not in the set, so they are compressed. */
  lemma MixedCaseImageIsCompressed()
    ensures ShouldCompress("Jpg") && ShouldCompress("pNG") && ShouldCompress("jpeg")
    ensures !ShouldCompress("jpg") && !ShouldCompress("PNG")
  {
  }

  /** The fixed extension-to-MIME table. */
  const ContentTypeMap: map<string, string> := map[
    "css" := "text/css",
    "html" := "text/html",
    "htm" := "text/html",
    "ico" := "image/x-ico",
    "js" := "text/javascript",
    "jpg" := "image/jpeg",
    "JPG" := "image/jpeg",
    "gif" := "image/gif",
    "GIF" := "image/gif",
    "png" := "image/png",
    "PNG" := "image/png"
  ]

  /** The generic type used for an unmapped suffix. */
  const OctetStream: string := "application/octet-stream"

  /** The Content-Type for a suffix: its table entry, else the generic binary type. */
  function ContentType(suffix: string): (r: string)
    ensures r == OctetStream <==> suffix !in ContentTypeMap
    ensures r in ContentTypeMap.Values || r == OctetStream
    ensures suffix in ContentTypeMap ==> r == ContentTypeMap[suffix]
  {
    if suffix in ContentTypeMap then ContentTypeMap[suffix] else OctetStream
  }

  /** Every file that escapes compression is an image whose MIME type is known and is an
      `image/` type; the generic fallback only ever goes with a compressed upload. */
  lemma UncompressedIsKnownImage(suffix: string)
    requires !ShouldCompress(suffix)
    ensures ContentType(suffix) != OctetStream
    ensures |ContentType(suffix)| > 6 && ContentType(suffix)[..6] == "image/"
  {
  }

  const CacheControl: string := "Cache-Control"
  const ContentTypeHeader: string := "Content-Type"
  const ContentEncoding: string := "Content-Encoding"

  /** Upload headers: a header name mapped to its list of values. */
  type HeaderSet = map<string, seq<string>>

  /** The header set of one upload. The two branches mirror the worker's two branches,
      each of which does its own table lookup. */
  function Headers(suffix: string, compressed: bool): (r: HeaderSet)
    ensures r.Keys == {CacheControl, ContentTypeHeader} + (if compressed then {ContentEncoding} else {})
    ensures r[CacheControl] == ["max-age=900"]
    ensures r[ContentTypeHeader] == [ContentType(suffix)]
    ensures ContentEncoding in r <==> compressed
    ensures compressed ==> r[ContentEncoding] == ["gzip"]
  {
    var base: HeaderSet := map[CacheControl := ["max-age=900"]];
    if compressed then
      var contentType := if suffix in ContentTypeMap then ContentTypeMap[suffix] else OctetStream;
      base[ContentTypeHeader := [contentType]][ContentEncoding := ["gzip"]]
    else
      var contentType := if suffix in ContentTypeMap then ContentTypeMap[suffix] else OctetStream;
      base[ContentTypeHeader := [contentType]]
  }

  /** The compressing branch sends exactly the other branch's headers plus the gzip marker:
      the Content-Type does not depend on the branch taken. */
  lemma CompressionOnlyAddsEncoding(suffix: string)
    ensures Headers(suffix, true) == Headers(suffix, false)[ContentEncoding := ["gzip"]]
    ensures Headers(suffix, true)[ContentTypeHeader] == Headers(suffix, false)[ContentTypeHeader]
  {
  }
}
