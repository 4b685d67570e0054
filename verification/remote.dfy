/**
 The remote side of one file's decision: the object key derived from the local path, the
 quote-stripping of the ETag the bucket listing reports, and the skip/upload choice against
 the remote index (a snapshot map from key to ETag, fetched once and never changed).
 */
module Remote {
  import opened Wrappers

  /** What the worker does with a file once its hash and key are known. */
  datatype Decision = Skip | Upload

  /** Go runtime panics on the decision path: a slice with bounds outside the string. */
  datatype Panic = KeyOutOfRange | ETagOutOfRange

  /** Remote key -> ETag exactly as listed (with its surrounding quotes). */
  type RemoteIndex = map<string, string>

  /** The key is the absolute path with `|source| + 1` leading characters cut off
      (the root and its separator); a shorter path makes the slice panic. */
  function KeyName(source: string, path: string): (r: Option<string>)
    ensures r.Some? <==> |path| > |source|
    ensures r.Some? ==> |r.value| == |path| - |source| - 1 && path == path[..|source| + 1] + r.value
  {
    if |source| + 1 <= |path| then Some(path[|source| + 1..]) else None
  }

  /** The walker's path construction and the key derivation are inverse: a file at
      `source + "/" + rel` gets the key `rel`. */
  lemma KeyOfJoinedPath(source: string, rel: string)
    ensures KeyName(source, source + "/" + rel) == Some(rel)
  {
    var path := source + "/" + rel;
    assert path[|source| + 1..] == rel;
  }

  /** A concrete case: the root and separator are removed and no leading slash remains. */
  lemma KeyOfNestedAsset()
    ensures KeyName("/srv/site", "/srv/site/assets/app.js") == Some("assets/app.js")
  {
    KeyOfJoinedPath("/srv/site", "assets/app.js");
  }

  /** Drops the first and the last character of an ETag. The characters are not checked
      to be quotes; an ETag shorter than two characters makes the slice panic. */
  function StripQuotes(etag: string): (r: Option<string>)
    ensures r.Some? <==> |etag| >= 2
    ensures r.Some? ==> etag == [etag[0]] + r.value + [etag[|etag| - 1]]
  {
    if |etag| >= 2 then Some(etag[1..|etag| - 1]) else None
  }

  /** The quoted form in which the bucket listing reports a checksum. */
  function Quote(h: string): (r: string)
    ensures |r| == |h| + 2 && r[0] == '"' && r[|r| - 1] == '"'
  {
    "\"" + h + "\""
  }

  /** Stripping undoes quoting. */
  lemma StripQuote(h: string)
    ensures StripQuotes(Quote(h)) == Some(h)
  {
    assert Quote(h)[1..|Quote(h)| - 1] == h;
  }

  /** Any first and last characters are removed, quotes or not. */
  lemma StripUnquoted()
    ensures StripQuotes("abc123") == Some("bc12")
  {
    assert "abc123"[1..5] == "bc12";
  }

  /** The skip/upload decision, with a failed hash as its own branch: no comparison is
      possible, so the file is uploaded. Otherwise a file is skipped exactly when its key is
      listed and the listed ETag, stripped, equals the local hex digest. */
  function Decide(index: RemoteIndex, key: string, hash: Option<string>): (r: Result<Decision, Panic>)
    ensures hash.None? ==> r == Success(Upload)
    ensures key !in index ==> r == Success(Upload)
    ensures r == Success(Skip) <==> hash.Some? && key in index && StripQuotes(index[key]) == Some(hash.value)
    ensures r.Failure? <==> hash.Some? && key in index && |index[key]| < 2
    ensures r.Failure? ==> r.error == ETagOutOfRange
  {
    if hash.None? || key !in index then Success(Upload)
    else match StripQuotes(index[key])
      case None => Failure(ETagOutOfRange)
      case Some(remote) => if remote == hash.value then Success(Skip) else Success(Upload)
  }

  /** With the remote ETag in its quoted form, the file is skipped exactly when its local
      hash is the quoted one. */
  lemma DecideAgainstQuoted(index: RemoteIndex, key: string, remote: string, hash: Option<string>)
    requires key in index && index[key] == Quote(remote)
    ensures Decide(index, key, hash) == (if hash == Some(remote) then Success(Skip) else Success(Upload))
  {
    StripQuote(remote);
  }

  /** The quoting example: `"abc123"` in the listing matches a local hash `abc123`. */
  lemma QuotedChecksumMatches()
    ensures Decide(map["page.html" := "\"abc123\""], "page.html", Some("abc123")) == Success(Skip)
    ensures Decide(map["page.html" := "\"abc123\""], "page.html", Some("abc124")) == Success(Upload)
  {
    DecideAgainstQuoted(map["page.html" := "\"abc123\""], "page.html", "abc123", Some("abc123"));
    DecideAgainstQuoted(map["page.html" := "\"abc123\""], "page.html", "abc123", Some("abc124"));
  }

  /** The hash string the code compares: a failed hash leaves it empty. */
  function HashAsWritten(hash: Option<string>): (r: string)
    ensures hash.Some? ==> r == hash.value
    ensures hash.None? ==> r == ""
  {
    match hash
    case Some(h) => h
    case None => ""
  }

  /** The decision as the code writes it: a failed hash is compared as the empty string. */
  function DecideAsWritten(index: RemoteIndex, key: string, hash: string): (r: Result<Decision, Panic>)
    ensures r == Success(Skip) <==> key in index && StripQuotes(index[key]) == Some(hash)
    ensures r.Failure? <==> key in index && |index[key]| < 2
  {
    if key in index then
      match StripQuotes(index[key])
      case None => Failure(ETagOutOfRange)
      case Some(remote) => if remote == hash then Success(Skip) else Success(Upload)
    else Success(Upload)
  }

  /** As written, a file whose hash failed is skipped when the listed ETag is two
      characters long (`""`): the empty stripped ETag equals the empty hash string. */
  lemma HashFailureSkipsAsWritten()
    ensures DecideAsWritten(map["index.html" := "\"\""], "index.html", HashAsWritten(None)) == Success(Skip)
    ensures Decide(map["index.html" := "\"\""], "index.html", None) == Success(Upload)
  {
    StripQuote("");
  }

  /** The written and the corrected decisions agree whenever the hash succeeded; they differ
      only when it failed and the listed ETag has at most two characters (the written code
      then skips, or panics on the slice, instead of uploading). */
  lemma AsWrittenDiffersOnlyOnFailedHash(index: RemoteIndex, key: string, hash: Option<string>)
    ensures Decide(index, key, hash) != DecideAsWritten(index, key, HashAsWritten(hash)) <==>
      hash.None? && key in index && |index[key]| <= 2
  {
    if hash.None? && key in index && |index[key]| == 2 {
      assert index[key][1..1] == "";
    }
  }
}
