# s3-website-sync: the per-file decision layer, verified

`s3-website-sync` mirrors a local directory tree to an S3 bucket that serves a static
website. A walker goroutine lists the tree and queues every entry that is not a
directory. Four upload workers
take files off the queue. For each file a worker:

- classifies it by extension;
- gzips every file whose suffix is not exactly `jpg`, `gif`, `png`, `JPG`, `GIF` or `PNG` into a
  temporary copy (so `.jpeg` and `.Jpg` images are gzipped too);
- builds the upload headers;
- hashes the bytes it would upload;
- derives the object key by cutting the sync root off the path;
- compares the hash with the ETag the bucket listing reported for that key;
- uploads only when they differ.

This project models that decision layer in Dafny as pure functions and proves its contracts.
The layer covers the extension rules, the header set, which file gets hashed and uploaded,
key derivation, ETag comparison, `%x` hex formatting and the recursive walk. The file system,
MD5, gzip and S3 are uninterpreted inputs.

Modules, one file each:

- `wrappers.dfy`, module `Wrappers`: `Option` and `Result`.
- `classify.dfy`, module `Classify`: the suffix after the last `.` of the path, the six-suffix
  compression gate, the MIME table with its `application/octet-stream` fallback, and the
  header set.
- `hex.dfy`, module `HexFormat`: `%x` formatting of a byte slice. Its partner is a decoder,
  with a proof that decoding recovers the bytes.
- `remote.dfy`, module `Remote`: key derivation and ETag quote stripping. It holds the
  skip/upload decision twice: once as written (`DecideAsWritten`) and once corrected
  (`Decide`), see Findings.
- `walk.dfy`, module `Walk`: the directory walk as a function from a tree value to the queue
  events. Each non-directory entry is a `Task(dirname + "/" + name)`. The top-level call adds a
  single `Close`. The walk is proved equal to a reference list of the tree's files. For a
  well-formed tree its paths are proved distinct.
- `worker.dfy`, module `Worker`: one file's processing (`Prepare` then `Conclude`, combined
  as `Process`), the workers as a map over the queue, and whole-run lemmas. These prove:
  - every file is attempted exactly once;
  - every key is the file's relative path;
  - a second run against the listing the first run left behind skips every file the first run
    hashed and concluded.

Go panics become an explicit outcome `Crashed`, not a precondition. There are two:

- slicing the key out of a path that is too short;
- slicing an ETag shorter than two characters.

Where the code's behaviour is surprising, the model follows the code:

- A path with no `.` is not an error. `strings.LastIndex` returns -1, so the suffix is the whole
  path. A `.` in a directory name also counts, so `./site/README` has suffix `/site/README`.
- The temporary gzip copy is not always removed. `continue` on the skip branch runs before the
  removal, and so does `continue` when the original cannot be reopened after the temp file was
  created. So `removesTemp` holds only on the upload path, and `Abandoned` records a leftover
  copy.
- The ETag's first and last characters are dropped without checking that they are quotes.
- End of input is the close of the channel, seen by every worker, not a sentinel value.
- A failed hash is not an explicit "upload" branch. It is compared as the empty string. This
  one behaviour is the exception: the per-file pipeline (`Worker.Conclude`, `Worker.Process`)
  uses the corrected decision, and the pipeline as written (`Worker.ConcludeAsWritten`,
  `Worker.ProcessAsWritten`) is kept beside it, with the exact inputs on which the two differ;
  see Findings.

## Model

| member | source | states |
|---|---|---|
| `Classify.LastIndexOf` | s3-website-sync.go:103 | the result is -1 exactly when the character is absent; otherwise it is an occurrence with none after it |
| `Classify.Suffix` | s3-website-sync.go:103-104 | the suffix holds no `.`, ends the path, and directly follows a `.` when the path has one; with no `.` it is the whole path |
| `Classify.SuffixOfExtension` | s3-website-sync.go:103-104 | `prefix + "." + ext` has suffix `ext` whatever dots the prefix holds |
| `Classify.ShouldCompress` | s3-website-sync.go:105 | a file is compressed exactly when its suffix is not one of the six image suffixes |
| `Classify.MixedCaseImageIsCompressed` | s3-website-sync.go:105 | matching is case-sensitive: `Jpg`, `pNG` and `jpeg` are compressed, `jpg` and `PNG` are not |
| `Classify.ContentType` | s3-website-sync.go:17-29 | the type is the table entry for a mapped suffix; the octet-stream fallback is returned exactly for unmapped suffixes |
| `Classify.UncompressedIsKnownImage` | s3-website-sync.go:17-29 | every suffix that skips compression has a known `image/` type, so the fallback only goes with compressed uploads |
| `Classify.Headers` | s3-website-sync.go:100-137 | Cache-Control `max-age=900` and one Content-Type are always present; Content-Encoding `gzip` is present exactly when compressing; no other header |
| `Classify.CompressionOnlyAddsEncoding` | s3-website-sync.go:123-136 | the compressing branch's headers are the other branch's plus the gzip marker, so Content-Type does not depend on the branch |
| `HexFormat.Hex` | s3-website-sync.go:89 | `%x` output has two characters per byte, all from `0-9a-f` |
| `HexFormat.Unhex` | s3-website-sync.go:89 | decoding an even-length hex string gives half as many bytes |
| `HexFormat.UnhexHex` | s3-website-sync.go:89 | decoding the `%x` output gives back the digest bytes |
| `HexFormat.HexInjective` | s3-website-sync.go:89 | different digests print differently |
| `HexFormat.DigestHexShape` | s3-website-sync.go:87-89 | a 16-byte MD5 digest prints as 32 lowercase hex characters |
| `Remote.KeyName` | s3-website-sync.go:150 | a key exists exactly when the path is longer than the root; the path is then its first `len(root)+1` characters followed by the key |
| `Remote.KeyOfJoinedPath` | s3-website-sync.go:150 | the key of `root + "/" + rel`, the walker's path construction, is `rel` |
| `Remote.KeyOfNestedAsset` | s3-website-sync.go:150 | `/srv/site/assets/app.js` under root `/srv/site` has key `assets/app.js`, with no leading slash |
| `Remote.StripQuotes` | s3-website-sync.go:152-153 | stripping succeeds exactly for ETags of two or more characters and removes exactly the first and last character |
| `Remote.StripQuote` | s3-website-sync.go:152-153 | stripping undoes the listing's quoting |
| `Remote.StripUnquoted` | s3-website-sync.go:153 | the stripped characters are not checked to be quotes: `abc123` becomes `bc12` |
| `Remote.Decide` | s3-website-sync.go:151-158 | corrected (see Findings): skip exactly when the hash succeeded, the key is listed and the stripped ETag equals the hash; a missing key, a mismatch or a failed hash means upload; a listed ETag under two characters panics |
| `Remote.DecideAgainstQuoted` | s3-website-sync.go:151-158 | against a quoted ETag the file is skipped exactly when its hash is the quoted value |
| `Remote.QuotedChecksumMatches` | s3-website-sync.go:151-158 | a listed `"abc123"` matches the local hash `abc123` and not `abc124` |
| `Remote.HashAsWritten` | s3-website-sync.go:145-149 | a failed hash leaves the empty string as the hash that is compared |
| `Remote.DecideAsWritten` | s3-website-sync.go:151-158 | the code's decision: skip exactly when the key is listed and the stripped ETag equals the given hash string |
| `Remote.HashFailureSkipsAsWritten` | s3-website-sync.go:145-158 | as written, a file whose hash failed is skipped against the ETag `""`; the corrected decision uploads it |
| `Remote.AsWrittenDiffersOnlyOnFailedHash` | s3-website-sync.go:145-158 | the written and the corrected decisions differ exactly when the hash failed and the listed ETag has at most two characters |
| `Walk.GetAllFiles` | s3-website-sync.go:177-200 | the top-level call ends with one `Close` and sends no other; nested calls send only tasks |
| `Walk.Emit` | s3-website-sync.go:186-196 | the loop over a listing sends only tasks |
| `Walk.EmitIsFiles` | s3-website-sync.go:186-196 | the walk sends exactly the tree's files, in order, each as `dirname/relative-path`, and no directory |
| `Walk.WalkIsFilesThenClose` | s3-website-sync.go:177-200 | the whole walk is the file tasks followed by one close exactly when it is the top-level call |
| `Walk.WalkPaths` | s3-website-sync.go:186-199 | what a consumer receives before the close is every file of the tree under the root |
| `Walk.FilesNoDuplicates` | s3-website-sync.go:186-196 | in a tree whose names are slash-free and unique per directory, no relative path occurs twice |
| `Walk.WalkNoDuplicates` | s3-website-sync.go:186-196 | in such a tree the walk hands out each file's full path exactly once |
| `Walk.WalkExample` | s3-website-sync.go:177-200 | a concrete tree: a nested file is sent under its directory, an empty directory sends nothing, and the close comes last |
| `Worker.HashFile` | s3-website-sync.go:79-90 | the hash exists exactly when the file can be opened; it is 32 lowercase hex characters that decode to the file's digest |
| `Worker.ContentPath` | s3-website-sync.go:139-144 | the named compressed copy is hashed and uploaded when its name is non-empty, otherwise the original |
| `Worker.Prepare` | s3-website-sync.go:100-145 | a file is abandoned exactly when it is compressible and its temp copy cannot be created or its original cannot be reopened; the reason is `NoTempFile` exactly when no temp copy exists, and otherwise that copy is left behind; the headers follow the gate; the hashed file is the temp copy when one was named, else the original |
| `Worker.Conclude` | s3-website-sync.go:150-170 | the key slice panics exactly for a path no longer than the root; the ETag slice panics exactly for a hashed file whose key is listed with an ETag under two characters; otherwise the file is concluded; skip exactly on a hashed file with a listed, matching stripped ETag; the temp copy is removed only on upload |
| `Worker.Process` | s3-website-sync.go:98-171 | one file end to end: abandoned exactly when the compression step fails, with the reason tied to the file system; each panic exactly on its slice condition and concluded otherwise; headers for the suffix; the uploaded file is the hashed file; the key is the relative path; skip exactly on a match; cleanup only on upload |
| `Worker.ConcludeAsWritten` | s3-website-sync.go:145-170 | the conclusion as the code writes it: a failed hash is compared as `""`, so the ETag slice panics for any listed key with an ETag under two characters, and skip is exact equality with the hash string |
| `Worker.ConcludeDiffersOnlyOnFailedHash` | s3-website-sync.go:145-158 | the corrected and the written conclusions differ exactly for a keyed file whose hash failed and whose listed ETag has at most two characters |
| `Worker.ProcessDiffersOnlyOnFailedHash` | s3-website-sync.go:98-171 | per file, the corrected worker and the written one agree except when compression went through, the hash of the uploaded file failed and the listed ETag has at most two characters |
| `Worker.FailedHashSkipsAsWritten` | s3-website-sync.go:145-158 | a photo whose digest cannot be read is skipped as written against the ETag `""`; the corrected worker uploads it |
| `Worker.FailedHashCrashesAsWritten` | s3-website-sync.go:145-158 | the same photo crashes as written on the ETag slice against an empty ETag; the corrected worker uploads it |
| `Worker.StylesheetIsCompressed` | s3-website-sync.go:105-129 | `style.css` is uploaded from its temp copy with Content-Type `text/css` and Content-Encoding `gzip`, and the copy is removed |
| `Worker.PhotoIsNotCompressed` | s3-website-sync.go:130-144 | `photo.jpg` is uploaded from the original with Content-Type `image/jpeg` and no Content-Encoding |
| `Worker.UnknownExtensionFallsBack` | s3-website-sync.go:123-127 | `data.xyz` is still uploaded, typed `application/octet-stream` |
| `Worker.SkippedCopyIsKept` | s3-website-sync.go:153-155 | a skipped file does not remove its temp copy |
| `Worker.ClassifyExtension` | s3-website-sync.go:103-104 | the suffix of `root/stem.ext` is `ext` |
| `Worker.ProcessAsWritten` | s3-website-sync.go:98-171 | one file end to end as the code writes it: abandoned exactly when the compression step fails; each panic exactly on its slice condition, the ETag slice for any listed key with an ETag under two characters; the key is the relative path; skip exactly when the stripped ETag equals the hash string, `""` for a failed hash; headers for the suffix; the uploaded file is the hashed file; cleanup only on upload |
| `Worker.Run` | s3-website-sync.go:66-76 | one walker from the root feeds the workers over one index snapshot: one outcome per file of the tree, each for that file's full path |
| `Worker.Workers` | s3-website-sync.go:93-97 | each path sent before the close is processed once, in order; nothing after the close is processed |
| `Worker.RunIsProcessOfFiles` | s3-website-sync.go:186-194 | the run has one outcome per file of the tree, in order, each the processing of that file's full path |
| `Worker.RunCoversEveryFile` | s3-website-sync.go:186-194 | one outcome per file of the tree under its full path; the key slice never panics; every key is the file's relative path |
| `Worker.Record` | s3-website-sync.go:165-166 | after an upload with a known digest the listing holds the quoted digest under the key; every other key keeps its listing |
| `Worker.SkipAgainstListing` | s3-website-sync.go:151-155 | the index enters only through the decision: a hashed file is skipped against any listing that holds its digest under its key |
| `Worker.SecondRunSkips` | s3-website-sync.go:151-158 | a second run over an unchanged tree, against the listing the first run left behind, skips every file the first run hashed and concluded, and removes no temp copy |

## Left out

- Flag parsing, the `us-east-1` default region, `aws.EnvAuth`, `PutBucket` and the bucket check
  (s3-website-sync.go:37-64) are process setup over an external S3 library.
- `GetBucketContents` (s3-website-sync.go:66) is a network listing. The remote index is a plain
  key-to-ETag map parameter, and its ignored error is not modelled.
- The upload itself (`os.Stat`, `os.Open`, `PutReaderHeader`, `file.Close`,
  s3-website-sync.go:160-167) is foreign I/O. An `Upload` decision ends the model. A failed
  `Stat` would panic on `info.Size()`; that is not modelled.
- Goroutines, the 100-slot buffered channel, `done_channel` and the join on four workers
  (s3-website-sync.go:67-76, 93-95, 174) are concurrency. The channel is the walker's event
  sequence. The workers are a sequential map over it. An outcome depends only on its path,
  the read-only index and the file system, so the split across workers does not change any
  outcome. Backpressure on a full queue is not modelled.
- The `nil` check that ends a worker (s3-website-sync.go:95-97) is not modelled separately.
  The walker never sends `nil`; the close ends the worker.
- MD5 and gzip (s3-website-sync.go:87-88, 112-120) are foreign algorithms. The digest of a
  path is an uninterpreted input, and so is the temp file's name. Only the `%x` formatting is
  modelled.
- Filesystem calls are answers in the `FileSystem` record: whether a temp file can be
  created, whether the original can be reopened, and the digest of a path. `Readdir` is the
  input tree, in listing order. The directory-open and `Readdir` failures end the process
  through `log.Fatal` (s3-website-sync.go:178-185), so the tree is taken as readable.
- `os.Remove` of the temp copy is the `removesTemp` flag, not an effect.
- Logging is left out everywhere.
- The `os_fileinfo` field (size, modification time) plays no part in any decision and is not
  modelled.
- A Go panic kills the whole process. The model records `Crashed` for that file and still
  computes the outcomes of the other files.
- Go strings are byte strings; the model uses `seq<char>`. This changes nothing for the ASCII
  `.` and `/` the code searches for. The key slice (s3-website-sync.go:150) and the ETag slice
  (s3-website-sync.go:153) count bytes, so the model's lengths and panic conditions agree with
  the code only for ASCII text: a one-character, two-byte ETag such as `é` does not panic in Go,
  but `Remote.StripQuotes` reports it out of range.
- `Worker.Conclude`: on a failed hash it uploads, where the code skips against the ETag `""`
  and panics against an ETag under two characters (s3-website-sync.go:145-155). It uses the
  corrected decision `Remote.Decide`; `Worker.ConcludeAsWritten` is the written behaviour.
- `Worker.Process`: inherits that one departure from `Worker.Conclude`, and so do `Worker.Run`
  and the whole-run lemmas. `Worker.ProcessDiffersOnlyOnFailedHash` names exactly the inputs on
  which `Worker.ProcessAsWritten` differs.
- `Worker.SecondRunSkips`: it assumes the store reports a plain upload's ETag as the quoted
  hex MD5 of the uploaded bytes. Files whose hash fails are uploaded again on every run, and a
  hashed file listed with an ETag under two characters crashes on both runs, so the lemma is
  limited to files the first run hashed and concluded. Both runs are given one `FileSystem`, so
  a compressed file's temporary copy has the same name and digest on both runs. In the program
  `ioutil.TempFile` (s3-website-sync.go:107) picks a fresh name each run; the lemma carries over
  only because gzip at `BestCompression` writes the same bytes for the same original, so the
  copy's digest depends only on the original.
- `Worker.Record`: an upload whose hash failed leaves its key's old ETag in the listing. The
  store would replace the object, but its new ETag is not known to the model. No lemma uses the
  listing of such a key.

## Findings

| source | as written | input that shows it | evidently intended | confidence | as-written member | corrected member |
|---|---|---|---|---|---|---|
| s3-website-sync.go:145-158 | a failed hash leaves `hash` as `""`, and that value is still compared with the stripped ETag | the local file cannot be opened for hashing, and the key is listed with ETag `""` (two quote characters): the stripped ETag `""` equals the empty hash, so the upload is skipped | a file whose hash failed is always uploaded, since nothing valid was compared | low: S3 does not normally report an empty ETag; not executed | `Remote.HashFailureSkipsAsWritten` | `Remote.Decide` |
