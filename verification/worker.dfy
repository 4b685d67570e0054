/**
 One upload worker's handling of a file, and the whole run as the workers' combined result:
 classify, compress when the gate says so, choose the file to hash and upload, derive the key,
 compare against the remote index, and decide. The file system is a record of uninterpreted
 answers; the digest algorithm, gzip and the upload call are not modelled.
 */
module Worker {
  import opened Wrappers
  import opened Classify
  import opened HexFormat
  import opened Remote
  import opened Walk

  /** The answers the file system gives for a run. */
  datatype FileSystem = FileSystem(
    /** The name of the temporary copy made for this original; None when it cannot be created. */
    tempFile: string -> Option<string>,
    /** Whether the original at this path can be opened for compression. */
    opens: string -> bool,
    /** The MD5 digest of the bytes at this path; None when the file cannot be opened. */
    md5: string -> Option<Digest>)

  /** Why the compression step gave up on a file. */
  datatype Abandon = NoTempFile | OriginalUnreadable

  /** What happened to one queued file. */
  datatype Outcome =
    | Abandoned(path: string, reason: Abandon, leftTemp: Option<string>)
    | Crashed(path: string, panic: Panic)
    | Done(path: string, key: string, contentPath: string, headers: HeaderSet,
           hash: Option<string>, decision: Decision, removesTemp: bool)

  /** `hash_file`: the lowercase hex digest of the file, or None when it cannot be opened. */
  function HashFile(fs: FileSystem, path: string): (r: Option<string>)
    ensures r.Some? <==> fs.md5(path).Some?
    ensures r.Some? ==> |r.value| == 32 && IsLowerHex(r.value) && Unhex(r.value) == fs.md5(path).value
  {
    match fs.md5(path)
    case None => None
    case Some(d) => UnhexHex(d); Some(Hex(d))
  }

  /** The file that is hashed and uploaded: the compressed copy when one was named,
      else the original. */
  function ContentPath(absolute: string, compressed: string): (r: string)
    ensures |compressed| > 0 ==> r == compressed
    ensures |compressed| == 0 ==> r == absolute
  {
    if |compressed| > 0 then compressed else absolute
  }

  /** The compression step goes through: the file is an image, or its temporary copy was
      created and the original could be opened. */
  predicate Prepares(fs: FileSystem, path: string) {
    Suffix(path) in ImageSuffixes || (fs.tempFile(path).Some? && fs.opens(path))
  }

  /** The file a worker hashes and uploads for `path` when the compression step goes through. */
  function UploadPath(fs: FileSystem, path: string): string {
    if Suffix(path) in ImageSuffixes || fs.tempFile(path).None? then path
    else ContentPath(path, fs.tempFile(path).value)
  }

  /** The key slice is in range, the key is listed and its ETag is too short to strip. */
  predicate ETagPanics(source: string, index: RemoteIndex, path: string, hash: Option<string>) {
    |path| > |source| && hash.Some? && path[|source| + 1..] in index && |index[path[|source| + 1..]]| < 2
  }

  /** A file after classification, compression and hashing: everything the decision needs
      except the remote index. */
  datatype Prepared = Prepared(path: string, compressed: string, headers: HeaderSet, contentPath: string, hash: Option<string>)

  /** The index-independent part of the worker's loop body. */
  function Prepare(fs: FileSystem, path: string): (r: Result<Prepared, Outcome>)
    ensures r.Failure? <==> Suffix(path) !in ImageSuffixes && (fs.tempFile(path).None? || !fs.opens(path))
    ensures r.Failure? ==> r.error.Abandoned? && r.error.path == path
    ensures r.Failure? ==> (r.error.reason == NoTempFile <==> fs.tempFile(path).None?)
    ensures r.Failure? ==> (r.error.leftTemp.Some? <==> r.error.reason == OriginalUnreadable)
    ensures r.Failure? && r.error.reason == OriginalUnreadable ==> r.error.leftTemp == fs.tempFile(path)
    ensures r.Success? ==> r.value.contentPath == UploadPath(fs, path)
    ensures r.Success? ==> r.value.path == path && r.value.hash == HashFile(fs, r.value.contentPath)
    ensures r.Success? ==> r.value.headers == Headers(Suffix(path), Suffix(path) !in ImageSuffixes)
    ensures r.Success? && Suffix(path) in ImageSuffixes ==> r.value.compressed == "" && r.value.contentPath == path
    ensures r.Success? && Suffix(path) !in ImageSuffixes ==>
      fs.tempFile(path) == Some(r.value.compressed) && r.value.contentPath == ContentPath(path, r.value.compressed)
  {
    var suffix := Suffix(path);
    if ShouldCompress(suffix) then
      match fs.tempFile(path)
      case None => Failure(Abandoned(path, NoTempFile, None))
      case Some(temp) =>
        if !fs.opens(path) then Failure(Abandoned(path, OriginalUnreadable, Some(temp)))
        else
          var contentPath := ContentPath(path, temp);
          Success(Prepared(path, temp, Headers(suffix, true), contentPath, HashFile(fs, contentPath)))
    else
      var contentPath := ContentPath(path, "");
      Success(Prepared(path, "", Headers(suffix, false), contentPath, HashFile(fs, contentPath)))
  }

  /** Key derivation and the remote comparison. The temporary copy is removed only on the
      upload path: a skipped file keeps its copy. */
  function Conclude(source: string, index: RemoteIndex, p: Prepared): (r: Outcome)
    ensures r.path == p.path && !r.Abandoned?
    ensures r.Crashed? && r.panic == KeyOutOfRange <==> |p.path| <= |source|
    ensures r.Crashed? && r.panic == ETagOutOfRange <==> ETagPanics(source, index, p.path, p.hash)
    ensures r.Done? <==> |p.path| > |source| && !ETagPanics(source, index, p.path, p.hash)
    ensures r.Done? ==> KeyName(source, p.path) == Some(r.key)
    ensures r.Done? ==> r.contentPath == p.contentPath && r.headers == p.headers && r.hash == p.hash
    ensures r.Done? ==> (r.decision == Skip <==> r.hash.Some? && r.key in index && StripQuotes(index[r.key]) == r.hash)
    ensures r.Done? ==> (r.removesTemp <==> r.decision == Upload && |p.compressed| > 0)
  {
    match KeyName(source, p.path)
    case None => Crashed(p.path, KeyOutOfRange)
    case Some(key) =>
      match Decide(index, key, p.hash)
      case Failure(panic) => Crashed(p.path, panic)
      case Success(d) => Done(p.path, key, p.contentPath, p.headers, p.hash, d, d == Upload && |p.compressed| > 0)
  }

  /** The worker's handling of one queued path. */
  function Process(source: string, index: RemoteIndex, fs: FileSystem, path: string): (r: Outcome)
    ensures r.path == path
    // only the compression step abandons a file, and a temp copy is left behind exactly
    // when it was created but the original could not be read
    ensures r.Abandoned? <==> !Prepares(fs, path)
    ensures r.Abandoned? ==> (r.reason == NoTempFile <==> fs.tempFile(path).None?)
    ensures r.Abandoned? ==> (r.leftTemp.Some? <==> r.reason == OriginalUnreadable)
    ensures r.Abandoned? && r.reason == OriginalUnreadable ==> r.leftTemp == fs.tempFile(path)
    // the header set is the one for the path's suffix, with the gzip marker exactly when compressed
    ensures r.Done? ==> r.headers == Headers(Suffix(path), Suffix(path) !in ImageSuffixes)
    // the file hashed is the file uploaded: the named temp copy, else the original
    ensures r.Done? ==> r.hash == HashFile(fs, r.contentPath)
    ensures r.Done? && Suffix(path) in ImageSuffixes ==> r.contentPath == path
    ensures r.Done? && Suffix(path) !in ImageSuffixes ==>
      fs.tempFile(path).Some? && r.contentPath == ContentPath(path, fs.tempFile(path).value)
    // key and decision
    ensures r.Done? ==> KeyName(source, path) == Some(r.key)
    ensures r.Crashed? && r.panic == KeyOutOfRange <==> Prepares(fs, path) && |path| <= |source|
    ensures r.Crashed? && r.panic == ETagOutOfRange <==>
      Prepares(fs, path) && ETagPanics(source, index, path, HashFile(fs, UploadPath(fs, path)))
    ensures r.Done? <==>
      Prepares(fs, path) && |path| > |source| && !ETagPanics(source, index, path, HashFile(fs, UploadPath(fs, path)))
    ensures r.Done? ==> (r.decision == Skip <==>
      r.hash.Some? && r.key in index && StripQuotes(index[r.key]) == r.hash)
    // cleanup only on the upload path
    ensures r.Done? ==> (r.removesTemp <==>
      r.decision == Upload && Suffix(path) !in ImageSuffixes && |fs.tempFile(path).value| > 0)
  {
    match Prepare(fs, path)
    case Failure(abandoned) => abandoned
    case Success(p) => Conclude(source, index, p)
  }

  /** Key derivation and the remote comparison as the code writes them: a failed hash is
      compared as the empty string (`Remote.DecideAsWritten`). */
  function ConcludeAsWritten(source: string, index: RemoteIndex, p: Prepared): (r: Outcome)
    ensures r.path == p.path && !r.Abandoned?
    ensures r.Crashed? && r.panic == KeyOutOfRange <==> |p.path| <= |source|
    ensures r.Crashed? && r.panic == ETagOutOfRange <==>
      |p.path| > |source| && p.path[|source| + 1..] in index && |index[p.path[|source| + 1..]]| < 2
    ensures r.Done? ==> KeyName(source, p.path) == Some(r.key)
    ensures r.Done? ==> r.contentPath == p.contentPath && r.headers == p.headers && r.hash == p.hash
    ensures r.Done? ==> (r.decision == Skip <==> r.key in index && StripQuotes(index[r.key]) == Some(HashAsWritten(p.hash)))
    ensures r.Done? ==> (r.removesTemp <==> r.decision == Upload && |p.compressed| > 0)
  {
    match KeyName(source, p.path)
    case None => Crashed(p.path, KeyOutOfRange)
    case Some(key) =>
      match DecideAsWritten(index, key, HashAsWritten(p.hash))
      case Failure(panic) => Crashed(p.path, panic)
      case Success(d) => Done(p.path, key, p.contentPath, p.headers, p.hash, d, d == Upload && |p.compressed| > 0)
  }

  /** The worker's handling of one queued path as the code writes it. */
  function ProcessAsWritten(source: string, index: RemoteIndex, fs: FileSystem, path: string): (r: Outcome)
    ensures r.path == path
    ensures r.Abandoned? <==> !Prepares(fs, path)
    ensures r.Crashed? && r.panic == KeyOutOfRange <==> Prepares(fs, path) && |path| <= |source|
    ensures r.Crashed? && r.panic == ETagOutOfRange <==>
      Prepares(fs, path) && |path| > |source| && path[|source| + 1..] in index && |index[path[|source| + 1..]]| < 2
    ensures r.Done? ==> KeyName(source, path) == Some(r.key) && r.hash == HashFile(fs, r.contentPath)
    ensures r.Done? ==> (r.decision == Skip <==> r.key in index && StripQuotes(index[r.key]) == Some(HashAsWritten(r.hash)))
    ensures r.Done? ==> r.headers == Headers(Suffix(path), Suffix(path) !in ImageSuffixes)
    ensures r.Done? && Suffix(path) in ImageSuffixes ==> r.contentPath == path
    ensures r.Done? && Suffix(path) !in ImageSuffixes ==>
      fs.tempFile(path).Some? && r.contentPath == ContentPath(path, fs.tempFile(path).value)
    ensures r.Done? ==> (r.removesTemp <==>
      r.decision == Upload && Suffix(path) !in ImageSuffixes && |fs.tempFile(path).value| > 0)
  {
    match Prepare(fs, path)
    case Failure(abandoned) => abandoned
    case Success(p) => ConcludeAsWritten(source, index, p)
  }

  /** The corrected conclusion departs from the written one exactly for a keyed file whose hash
      failed and whose listed ETag has at most two characters: the code skips it (ETag `""`) or
      panics on the slice (shorter ETag), where the corrected worker uploads it. */
  lemma ConcludeDiffersOnlyOnFailedHash(source: string, index: RemoteIndex, p: Prepared)
    ensures Conclude(source, index, p) != ConcludeAsWritten(source, index, p) <==>
      |p.path| > |source| && p.hash.None? && p.path[|source| + 1..] in index && |index[p.path[|source| + 1..]]| <= 2
  {
    if |p.path| > |source| {
      AsWrittenDiffersOnlyOnFailedHash(index, p.path[|source| + 1..], p.hash);
    }
  }

  /** Per file, the corrected worker and the written one agree except on a failed hash against
      a listed ETag of at most two characters. */
  lemma ProcessDiffersOnlyOnFailedHash(source: string, index: RemoteIndex, fs: FileSystem, path: string)
    ensures Process(source, index, fs, path) != ProcessAsWritten(source, index, fs, path) <==>
      Prepares(fs, path) && |path| > |source| && HashFile(fs, UploadPath(fs, path)).None? &&
      path[|source| + 1..] in index && |index[path[|source| + 1..]]| <= 2
  {
    var prepared := Prepare(fs, path);
    if prepared.Success? {
      ConcludeDiffersOnlyOnFailedHash(source, index, prepared.value);
    }
  }

  /** A photo whose digest cannot be read, listed with the ETag `""`: the code compares the
      empty stripped ETag with the empty hash string and skips it; the corrected worker uploads it. */
  lemma FailedHashSkipsAsWritten(source: string, fs: FileSystem)
    requires fs.md5(source + "/" + "photo.jpg").None?
    ensures var r := ProcessAsWritten(source, map["photo.jpg" := "\"\""], fs, source + "/" + "photo.jpg");
      r.Done? && r.decision == Skip
    ensures var r := Process(source, map["photo.jpg" := "\"\""], fs, source + "/" + "photo.jpg");
      r.Done? && r.decision == Upload
  {
    var path := source + "/" + "photo.jpg";
    var index := map["photo.jpg" := "\"\""];
    var p := FailedPhoto(source, fs);
    StripQuote("");
    assert ProcessAsWritten(source, index, fs, path) == ConcludeAsWritten(source, index, p);
    assert ConcludeAsWritten(source, index, p) == Done(path, "photo.jpg", path, p.headers, None, Skip, false);
    assert Process(source, index, fs, path) == Conclude(source, index, p);
  }

  /** The same photo listed with an empty ETag: the code's ETag slice panics; the corrected
      worker uploads it. */
  lemma FailedHashCrashesAsWritten(source: string, fs: FileSystem)
    requires fs.md5(source + "/" + "photo.jpg").None?
    ensures ProcessAsWritten(source, map["photo.jpg" := ""], fs, source + "/" + "photo.jpg") ==
      Crashed(source + "/" + "photo.jpg", ETagOutOfRange)
    ensures var r := Process(source, map["photo.jpg" := ""], fs, source + "/" + "photo.jpg");
      r.Done? && r.decision == Upload
  {
    var path := source + "/" + "photo.jpg";
    var index := map["photo.jpg" := ""];
    var p := FailedPhoto(source, fs);
    assert ProcessAsWritten(source, index, fs, path) == ConcludeAsWritten(source, index, p);
    assert Process(source, index, fs, path) == Conclude(source, index, p);
  }

  /** The prepared photo of the two lemmas above, keyed `photo.jpg`, with no hash. */
  lemma FailedPhoto(source: string, fs: FileSystem) returns (p: Prepared)
    requires fs.md5(source + "/" + "photo.jpg").None?
    ensures p == Prepared(source + "/" + "photo.jpg", "", Headers("jpg", false), source + "/" + "photo.jpg", None)
    ensures Prepare(fs, source + "/" + "photo.jpg") == Success(p)
    ensures KeyName(source, source + "/" + "photo.jpg") == Some("photo.jpg")
  {
    var path := source + "/" + "photo.jpg";
    ClassifyExtension(source, "photo.jpg", "photo", "jpg");
    KeyOfJoinedPath(source, "photo.jpg");
    p := Prepared(path, "", Headers("jpg", false), path, None);
  }

  /** A stylesheet is compressed: its temp copy is hashed and uploaded with a gzip marker,
      and the copy is removed afterwards. */
  lemma StylesheetIsCompressed(source: string, index: RemoteIndex, fs: FileSystem, temp: string)
    requires fs.tempFile(source + "/" + "style.css") == Some(temp) && |temp| > 0
    requires fs.opens(source + "/" + "style.css")
    requires "style.css" !in index
    ensures var r := Process(source, index, fs, source + "/" + "style.css");
      r.Done? && r.key == "style.css" && r.contentPath == temp && r.decision == Upload && r.removesTemp &&
      r.headers == map[CacheControl := ["max-age=900"], ContentTypeHeader := ["text/css"], ContentEncoding := ["gzip"]]
  {
    var path := source + "/" + "style.css";
    ClassifyExtension(source, "style.css", "style", "css");
    KeyOfJoinedPath(source, "style.css");
    assert ShouldCompress("css") && ContentPath(path, temp) == temp;
    var p := Prepared(path, temp, Headers("css", true), temp, HashFile(fs, temp));
    assert Prepare(fs, path) == Success(p);
    assert Process(source, index, fs, path) == Conclude(source, index, p);
    assert Conclude(source, index, p) == Done(path, "style.css", temp, Headers("css", true), HashFile(fs, temp), Upload, true);
    CssHeaders();
  }

  /** A photo is uploaded as it is, without a Content-Encoding header. */
  lemma PhotoIsNotCompressed(source: string, index: RemoteIndex, fs: FileSystem)
    requires "photo.jpg" !in index
    ensures var r := Process(source, index, fs, source + "/" + "photo.jpg");
      r.Done? && r.contentPath == source + "/" + "photo.jpg" && r.decision == Upload && !r.removesTemp &&
      r.headers == map[CacheControl := ["max-age=900"], ContentTypeHeader := ["image/jpeg"]]
  {
    var path := source + "/" + "photo.jpg";
    ClassifyExtension(source, "photo.jpg", "photo", "jpg");
    KeyOfJoinedPath(source, "photo.jpg");
    var p := Prepared(path, "", Headers("jpg", false), path, HashFile(fs, path));
    assert Prepare(fs, path) == Success(p);
    assert Process(source, index, fs, path) == Conclude(source, index, p);
    assert Conclude(source, index, p) == Done(path, "photo.jpg", path, Headers("jpg", false), HashFile(fs, path), Upload, false);
    JpgHeaders();
  }

  /** An unmapped extension is still uploaded, typed as generic binary. */
  lemma UnknownExtensionFallsBack(source: string, index: RemoteIndex, fs: FileSystem, temp: string)
    requires fs.tempFile(source + "/" + "data.xyz") == Some(temp) && fs.opens(source + "/" + "data.xyz")
    requires "data.xyz" !in index
    ensures var r := Process(source, index, fs, source + "/" + "data.xyz");
      r.Done? && r.decision == Upload && r.headers[ContentTypeHeader] == [OctetStream]
  {
    var path := source + "/" + "data.xyz";
    ClassifyExtension(source, "data.xyz", "data", "xyz");
    KeyOfJoinedPath(source, "data.xyz");
    var cp := ContentPath(path, temp);
    var p := Prepared(path, temp, Headers("xyz", true), cp, HashFile(fs, cp));
    assert Prepare(fs, path) == Success(p);
    assert Process(source, index, fs, path) == Conclude(source, index, p);
    assert Conclude(source, index, p).Done? && Conclude(source, index, p).decision == Upload;
  }

  lemma CssHeaders()
    ensures Headers("css", true) == map[CacheControl := ["max-age=900"], ContentTypeHeader := ["text/css"], ContentEncoding := ["gzip"]]
  {
  }

  lemma JpgHeaders()
    ensures Headers("jpg", false) == map[CacheControl := ["max-age=900"], ContentTypeHeader := ["image/jpeg"]]
  {
  }

  /** The suffix of `source/stem.ext` is `ext`. */
  lemma ClassifyExtension(source: string, name: string, stem: string, ext: string)
    requires name == stem + "." + ext && '.' !in ext
    ensures Suffix(source + "/" + name) == ext
  {
    assert source + "/" + name == (source + "/" + stem) + "." + ext;
    SuffixOfExtension(source + "/" + stem, ext);
  }

  /** A compressed file whose copy matches the remote ETag is skipped and, as written,
      its temporary copy is not removed. */
  lemma SkippedCopyIsKept(source: string, index: RemoteIndex, fs: FileSystem, path: string)
    ensures var r := Process(source, index, fs, path);
      r.Done? && r.decision == Skip ==> !r.removesTemp
  {
  }

  // ---- The run ----

  /** The workers' combined result: `handle` applied to every path taken off the queue before
      its close, once each, in queue order. Which of the workers takes a file does not matter:
      the outcome depends only on the path. */
  function Workers(handle: string -> Outcome, queue: seq<Event>): (r: seq<Outcome>)
    ensures |r| == |Paths(queue)|
    ensures forall i :: 0 <= i < |r| ==> r[i] == handle(Paths(queue)[i])
  {
    if |queue| == 0 || queue[0].Close? then []
    else [handle(queue[0].path)] + Workers(handle, queue[1..])
  }

  /** One run over a source tree: the walk from the root feeds workers that all process
      against the same index snapshot. */
  function Run(source: string, index: RemoteIndex, fs: FileSystem, tree: seq<Entry>): (r: seq<Outcome>)
    ensures |r| == |Files(tree)|
    ensures forall i :: 0 <= i < |r| ==> r[i].path == source + "/" + Files(tree)[i]
  {
    WalkPaths(source, tree);
    Workers(path => Process(source, index, fs, path), GetAllFiles(source, tree, true))
  }

  /** The run is the per-file processing of the tree's files, in order, each under the root. */
  lemma RunIsProcessOfFiles(source: string, index: RemoteIndex, fs: FileSystem, tree: seq<Entry>)
    ensures |Run(source, index, fs, tree)| == |Files(tree)|
    ensures forall i :: 0 <= i < |Files(tree)| ==>
      Run(source, index, fs, tree)[i] == Process(source, index, fs, source + "/" + Files(tree)[i])
  {
    WalkPaths(source, tree);
  }

  /** Every file of the tree is attempted exactly once, under its full path; the key slice
      never goes out of range, and every key is the file's path relative to the root. */
  lemma RunCoversEveryFile(source: string, index: RemoteIndex, fs: FileSystem, tree: seq<Entry>)
    ensures |Run(source, index, fs, tree)| == |Files(tree)|
    ensures forall i :: 0 <= i < |Files(tree)| ==> Run(source, index, fs, tree)[i].path == source + "/" + Files(tree)[i]
    ensures forall i :: 0 <= i < |Files(tree)| ==>
      (!Run(source, index, fs, tree)[i].Crashed? || Run(source, index, fs, tree)[i].panic != KeyOutOfRange)
    ensures forall i :: 0 <= i < |Files(tree)| && Run(source, index, fs, tree)[i].Done? ==>
      Run(source, index, fs, tree)[i].key == Files(tree)[i]
  {
    RunIsProcessOfFiles(source, index, fs, tree);
    forall i | 0 <= i < |Files(tree)|
      ensures KeyName(source, source + "/" + Files(tree)[i]) == Some(Files(tree)[i])
    {
      KeyOfJoinedPath(source, Files(tree)[i]);
    }
  }

  // ---- Idempotence ----

  /** The listing after one outcome: an upload with a known digest is listed under its key
      with the quoted digest as ETag (the store's checksum of a plain upload). */
  function Record(index: RemoteIndex, o: Outcome): (r: RemoteIndex)
    ensures o.Done? && o.decision == Upload && o.hash.Some? ==> o.key in r && r[o.key] == Quote(o.hash.value)
    ensures forall k :: k in index && !(o.Done? && o.decision == Upload && o.hash.Some? && o.key == k) ==> k in r && r[k] == index[k]
    ensures forall k :: k in r ==> k in index || (o.Done? && o.key == k)
  {
    if o.Done? && o.decision == Upload && o.hash.Some? then index[o.key := Quote(o.hash.value)] else index
  }

  /** The listing after a whole run's outcomes. */
  function Publish(index: RemoteIndex, outs: seq<Outcome>): RemoteIndex
    decreases |outs|
  {
    if |outs| == 0 then index else Publish(Record(index, outs[0]), outs[1..])
  }

  /** `o` uploads key `k` with a known digest. */
  predicate UploadsKey(o: Outcome, k: string) {
    o.Done? && o.decision == Upload && o.hash.Some? && o.key == k
  }

  /** A key no outcome uploads keeps its listing. */
  lemma {:induction false} PublishUntouched(index: RemoteIndex, outs: seq<Outcome>, k: string)
    requires forall j :: 0 <= j < |outs| ==> !UploadsKey(outs[j], k)
    ensures (k in Publish(index, outs) <==> k in index)
    ensures k in index ==> Publish(index, outs)[k] == index[k]
    decreases |outs|
  {
    if |outs| > 0 {
      assert forall j :: 0 <= j < |outs[1..]| ==> outs[1..][j] == outs[j + 1];
      PublishUntouched(Record(index, outs[0]), outs[1..], k);
    }
  }

  /** A key every uploading outcome lists with digest `h` is listed as `h`, quoted. */
  lemma {:induction false} PublishUploaded(index: RemoteIndex, outs: seq<Outcome>, k: string, h: string)
    requires exists j :: 0 <= j < |outs| && UploadsKey(outs[j], k)
    requires forall j :: 0 <= j < |outs| && UploadsKey(outs[j], k) ==> outs[j].hash == Some(h)
    ensures k in Publish(index, outs) && Publish(index, outs)[k] == Quote(h)
    decreases |outs|
  {
    var rest := outs[1..];
    assert forall j :: 0 <= j < |rest| ==> rest[j] == outs[j + 1];
    if exists j :: 0 <= j < |rest| && UploadsKey(rest[j], k) {
      PublishUploaded(Record(index, outs[0]), rest, k, h);
    } else {
      assert UploadsKey(outs[0], k);
      PublishUntouched(Record(index, outs[0]), rest, k);
    }
  }

  /** Two files of one run with the same key are the same file, so they have the same
      outcome. */
  lemma SameKeySameOutcome(source: string, index: RemoteIndex, fs: FileSystem, tree: seq<Entry>, i: int, j: int)
    ensures var run := Run(source, index, fs, tree);
      0 <= i < |run| && 0 <= j < |run| && run[i].Done? && run[j].Done? && run[i].key == run[j].key ==>
        run[i] == run[j]
  {
    RunCoversEveryFile(source, index, fs, tree);
    RunIsProcessOfFiles(source, index, fs, tree);
  }

  /** The index only enters through the decision: a file that was hashed and keyed is skipped
      against any listing that holds its digest under its key. */
  lemma SkipAgainstListing(source: string, index: RemoteIndex, listing: RemoteIndex, fs: FileSystem, path: string)
    ensures var o := Process(source, index, fs, path);
      var again := Process(source, listing, fs, path);
      o.Done? && o.hash.Some? && o.key in listing && StripQuotes(listing[o.key]) == o.hash ==>
        again.Done? && again.decision == Skip && !again.removesTemp
  {
    var prepared := Prepare(fs, path);
    if prepared.Success? {
      assert Process(source, index, fs, path) == Conclude(source, index, prepared.value);
      assert Process(source, listing, fs, path) == Conclude(source, listing, prepared.value);
    }
  }

  /** After the first run is published, every file it hashed is listed with its digest. */
  lemma PublishedListsDigest(source: string, index: RemoteIndex, fs: FileSystem, tree: seq<Entry>, i: int)
    requires 0 <= i < |Run(source, index, fs, tree)|
    requires Run(source, index, fs, tree)[i].Done? && Run(source, index, fs, tree)[i].hash.Some?
    ensures var first := Run(source, index, fs, tree);
      var listing := Publish(index, first);
      first[i].key in listing && StripQuotes(listing[first[i].key]) == first[i].hash
  {
    var first := Run(source, index, fs, tree);
    var o := first[i];
    var k := o.key;
    var h := o.hash.value;
    forall j | 0 <= j < |first| && UploadsKey(first[j], k) ensures first[j] == o {
      SameKeySameOutcome(source, index, fs, tree, i, j);
    }
    if o.decision == Upload {
      PublishUploaded(index, first, k, h);
      StripQuote(h);
    } else {
      PublishUntouched(index, first, k);
    }
  }

  /** Running the sync a second time, against the listing the first run left behind and an
      unchanged tree, skips every file the first run hashed and concluded. */
  lemma SecondRunSkips(source: string, index: RemoteIndex, fs: FileSystem, tree: seq<Entry>)
    ensures var first := Run(source, index, fs, tree);
      var second := Run(source, Publish(index, first), fs, tree);
      |second| == |first| &&
      forall i :: 0 <= i < |first| && first[i].Done? && first[i].hash.Some? ==>
        second[i].Done? && second[i].decision == Skip && !second[i].removesTemp
  {
    var first := Run(source, index, fs, tree);
    var listing := Publish(index, first);
    var second := Run(source, listing, fs, tree);
    RunIsProcessOfFiles(source, index, fs, tree);
    RunIsProcessOfFiles(source, listing, fs, tree);
    forall i | 0 <= i < |first| && first[i].Done? && first[i].hash.Some?
      ensures second[i].Done? && second[i].decision == Skip && !second[i].removesTemp
    {
      PublishedListsDigest(source, index, fs, tree, i);
      SkipAgainstListing(source, index, listing, fs, source + "/" + Files(tree)[i]);
    }
  }
}
