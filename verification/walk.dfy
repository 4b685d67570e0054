/**
 The directory walk as a pure function over a directory-tree value. The work queue the walker
 feeds becomes the sequence of events it sends: one `Task` per non-directory entry, in directory-listing
 order with subdirectories expanded in place, and a single `Close` from the top-level call.
 */
module Walk {

  /** One entry of a directory listing: anything that is not a directory (a regular file,
      a symbolic link, a FIFO, a socket) is a `File`. */
  datatype Entry = File(name: string) | Dir(name: string, entries: seq<Entry>)

  /** What the walker puts on the queue: a file's full path, or the close of the queue. */
  datatype Event = Task(path: string) | Close

  /** The walker: emit the listing of `dirname`, then close the queue when this is the
      top-level call. */
  function GetAllFiles(dirname: string, entries: seq<Entry>, firstCall: bool): (r: seq<Event>)
    decreases entries, 1
    ensures firstCall ==> |r| > 0 && r[|r| - 1] == Close
    ensures forall i :: 0 <= i < |r| && (i < |r| - 1 || !firstCall) ==> r[i].Task?
  {
    Emit(dirname, entries) + (if firstCall then [Close] else [])
  }

  /** The loop over a listing: a file becomes a task for `dirname + "/" + name`, a directory
      is walked under that same path as a nested (non-top-level) call. */
  function Emit(dirname: string, entries: seq<Entry>): (r: seq<Event>)
    decreases entries, 0
    ensures forall i :: 0 <= i < |r| ==> r[i].Task?
  {
    if |entries| == 0 then []
    else
      var fullPath := dirname + "/" + entries[0].name;
      var head := match entries[0]
        case File(_) => [Task(fullPath)]
        case Dir(_, children) => GetAllFiles(fullPath, children, false);
      head + Emit(dirname, entries[1..])
  }

  /** `rel` with `prefix + "/"` in front, element by element. */
  function Under(prefix: string, rels: seq<string>): (r: seq<string>)
    ensures |r| == |rels|
    ensures forall i :: 0 <= i < |rels| ==> r[i] == prefix + "/" + rels[i]
  {
    seq(|rels|, i requires 0 <= i < |rels| => prefix + "/" + rels[i])
  }

  /** Reference definition: the relative paths of all non-directory entries of a listing, in order:
      a file is its own name, a directory contributes its files under its name. */
  function Files(entries: seq<Entry>): seq<string>
  {
    if |entries| == 0 then []
    else
      var head := match entries[0]
        case File(n) => [n]
        case Dir(n, children) => Under(n, Files(children));
      head + Files(entries[1..])
  }

  /** The relative paths of the non-directory entries at or below one entry. */
  function FilesOf(e: Entry): (r: seq<string>)
    ensures r == Files([e])
  {
    assert [e][1..] == [];
    match e
    case File(n) => [n]
    case Dir(n, children) => Under(n, Files(children))
  }

  lemma FilesCons(entries: seq<Entry>)
    requires |entries| > 0
    ensures Files(entries) == FilesOf(entries[0]) + Files(entries[1..])
  {
  }

  /** One task per path, in order. */
  function Tasks(paths: seq<string>): (r: seq<Event>)
    ensures |r| == |paths|
    ensures forall i :: 0 <= i < |paths| ==> r[i] == Task(paths[i])
  {
    seq(|paths|, i requires 0 <= i < |paths| => Task(paths[i]))
  }

  lemma UnderAppend(prefix: string, a: seq<string>, b: seq<string>)
    ensures Under(prefix, a + b) == Under(prefix, a) + Under(prefix, b)
  {
  }

  lemma UnderUnder(dirname: string, name: string, rels: seq<string>)
    ensures Under(dirname + "/" + name, rels) == Under(dirname, Under(name, rels))
  {
    forall i | 0 <= i < |rels|
      ensures Under(dirname + "/" + name, rels)[i] == Under(dirname, Under(name, rels))[i]
    {
      assert dirname + "/" + name + "/" + rels[i] == dirname + "/" + (name + "/" + rels[i]);
    }
  }

  lemma TasksAppend(a: seq<string>, b: seq<string>)
    ensures Tasks(a + b) == Tasks(a) + Tasks(b)
  {
  }

  /** The walk emits exactly the reference list of files, each as `dirname/relative-path`,
      and no directory. */
  lemma {:induction false} EmitIsFiles(dirname: string, entries: seq<Entry>)
    ensures Emit(dirname, entries) == Tasks(Under(dirname, Files(entries)))
    decreases entries
  {
    if |entries| > 0 {
      var e := entries[0];
      var fullPath := dirname + "/" + e.name;
      EmitIsFiles(dirname, entries[1..]);
      FilesCons(entries);
      match e {
        case File(n) =>
          assert Under(dirname, [n]) == [fullPath];
        case Dir(n, children) =>
          EmitIsFiles(fullPath, children);
          UnderUnder(dirname, n, Files(children));
      }
      UnderAppend(dirname, FilesOf(e), Files(entries[1..]));
      TasksAppend(Under(dirname, FilesOf(e)), Under(dirname, Files(entries[1..])));
    }
  }

  /** The whole walk: every file of the tree as a task under the root, then one close when
      (and only when) this is the top-level call. */
  lemma WalkIsFilesThenClose(root: string, entries: seq<Entry>, firstCall: bool)
    ensures GetAllFiles(root, entries, firstCall) ==
      Tasks(Under(root, Files(entries))) + (if firstCall then [Close] else [])
  {
    EmitIsFiles(root, entries);
  }

  /** The paths a sequence of events carries, up to the first close. */
  function Paths(events: seq<Event>): (r: seq<string>)
    ensures |r| <= |events|
  {
    if |events| == 0 || events[0].Close? then [] else [events[0].path] + Paths(events[1..])
  }

  lemma {:induction false} PathsOfTasks(paths: seq<string>, tail: seq<Event>)
    requires tail == [] || tail[0].Close?
    ensures Paths(Tasks(paths) + tail) == paths
    decreases |paths|
  {
    if |paths| > 0 {
      assert (Tasks(paths) + tail)[1..] == Tasks(paths[1..]) + tail;
      PathsOfTasks(paths[1..], tail);
    }
  }

  /** What a consumer of the top-level walk receives before the close: the files of the
      tree, each under the root. */
  lemma WalkPaths(root: string, entries: seq<Entry>)
    ensures Paths(GetAllFiles(root, entries, true)) == Under(root, Files(entries))
  {
    WalkIsFilesThenClose(root, entries, true);
    PathsOfTasks(Under(root, Files(entries)), [Close]);
  }

  // ---- Distinct paths for a well-formed tree ----

  /** A listing as the file system produces it: names free of '/', unique per directory. */
  predicate WellFormed(entries: seq<Entry>)
    decreases entries
  {
    && (forall i :: 0 <= i < |entries| ==> '/' !in entries[i].name)
    && (forall i, j :: 0 <= i < j < |entries| ==> entries[i].name != entries[j].name)
    && (forall i :: 0 <= i < |entries| ==> entries[i].Dir? ==> WellFormed(entries[i].entries))
  }

  predicate NoDuplicates(s: seq<string>) {
    forall i, j :: 0 <= i < j < |s| ==> s[i] != s[j]
  }

  /** `r` begins with the path component `n`. */
  predicate HeadedBy(r: string, n: string) {
    |r| >= |n| && r[..|n|] == n && (|r| == |n| || r[|n|] == '/')
  }

  lemma FilesOfHeadedBy(e: Entry, r: string)
    requires r in FilesOf(e)
    ensures HeadedBy(r, e.name)
  {
    match e
    case File(n) =>
    case Dir(n, children) =>
      var i :| 0 <= i < |FilesOf(e)| && FilesOf(e)[i] == r;
      assert r == n + "/" + Files(children)[i];
  }

  /** Paths that begin with different slash-free components differ. */
  lemma HeadsDiffer(r1: string, r2: string, a: string, b: string)
    requires HeadedBy(r1, a) && HeadedBy(r2, b)
    requires '/' !in a && '/' !in b && a != b
    ensures r1 != r2
  {
  }

  lemma {:induction false} InFilesSomeEntry(entries: seq<Entry>, r: string)
    requires r in Files(entries)
    ensures exists j :: 0 <= j < |entries| && r in FilesOf(entries[j])
    decreases entries
  {
    FilesCons(entries);
    if r !in FilesOf(entries[0]) {
      InFilesSomeEntry(entries[1..], r);
      var j :| 0 <= j < |entries[1..]| && r in FilesOf(entries[1..][j]);
      assert r in FilesOf(entries[j + 1]);
    }
  }

  lemma UnderNoDuplicates(prefix: string, rels: seq<string>)
    requires NoDuplicates(rels)
    ensures NoDuplicates(Under(prefix, rels))
  {
    forall i, j | 0 <= i < j < |rels|
      ensures Under(prefix, rels)[i] != Under(prefix, rels)[j]
    {
      var u := Under(prefix, rels);
      assert u[i][|prefix| + 1..] == rels[i];
      assert u[j][|prefix| + 1..] == rels[j];
    }
  }

  lemma AppendNoDuplicates(a: seq<string>, b: seq<string>)
    requires NoDuplicates(a) && NoDuplicates(b)
    requires forall r :: r in a ==> r !in b
    ensures NoDuplicates(a + b)
  {
    forall i, j | 0 <= i < j < |a + b|
      ensures (a + b)[i] != (a + b)[j]
    {
      if i < |a| && j >= |a| {
        assert (a + b)[i] in a;
        assert (a + b)[j] == b[j - |a|];
      }
    }
  }

  /** In a well-formed tree no relative path is listed twice. */
  lemma {:induction false} FilesNoDuplicates(entries: seq<Entry>)
    requires WellFormed(entries)
    ensures NoDuplicates(Files(entries))
    decreases entries
  {
    if |entries| > 0 {
      var e := entries[0];
      var rest := entries[1..];
      assert WellFormed(rest) by {
        forall i | 0 <= i < |rest| ensures '/' !in rest[i].name { assert rest[i] == entries[i + 1]; }
        forall i, j | 0 <= i < j < |rest| ensures rest[i].name != rest[j].name {
          assert rest[i] == entries[i + 1] && rest[j] == entries[j + 1];
        }
        forall i | 0 <= i < |rest| && rest[i].Dir? ensures WellFormed(rest[i].entries) {
          assert rest[i] == entries[i + 1];
        }
      }
      FilesNoDuplicates(rest);
      FilesCons(entries);
      match e {
        case File(n) =>
        case Dir(n, children) =>
          FilesNoDuplicates(children);
          UnderNoDuplicates(n, Files(children));
      }
      forall r | r in FilesOf(e) ensures r !in Files(rest) {
        if r in Files(rest) {
          InFilesSomeEntry(rest, r);
          var j :| 0 <= j < |rest| && r in FilesOf(rest[j]);
          assert rest[j] == entries[j + 1];
          FilesOfHeadedBy(e, r);
          FilesOfHeadedBy(rest[j], r);
          HeadsDiffer(r, r, e.name, rest[j].name);
        }
      }
      AppendNoDuplicates(FilesOf(e), Files(rest));
    }
  }

  /** Completeness without repetition: in a well-formed tree the top-level walk hands out
      each file's full path exactly once. */
  lemma WalkNoDuplicates(root: string, entries: seq<Entry>)
    requires WellFormed(entries)
    ensures NoDuplicates(Paths(GetAllFiles(root, entries, true)))
  {
    WalkPaths(root, entries);
    FilesNoDuplicates(entries);
    UnderNoDuplicates(root, Files(entries));
  }

  /** A concrete tree: nested files are emitted under their directories, the empty
      directory emits nothing, and the close comes last. */
  lemma WalkExample()
    ensures GetAllFiles("site", [File("index.html"), Dir("img", [File("a.png")]), Dir("empty", [])], true)
      == [Task("site/index.html"), Task("site/img/a.png"), Close]
  {
    var entries := [File("index.html"), Dir("img", [File("a.png")]), Dir("empty", [])];
    assert entries[1..][1..] == [Dir("empty", [])];
    assert entries[1..][1..][1..] == [];
    assert [File("a.png")][1..] == [];
    assert "site" + "/" + "img" == "site/img";
    assert "site/img" + "/" + "a.png" == "site/img/a.png";
    assert "site" + "/" + "index.html" == "site/index.html";
    assert Emit("site/img", [File("a.png")]) == [Task("site/img/a.png")];
    assert Emit("site/empty", []) == [];
    assert Emit("site", entries[1..][1..]) == [];
    assert Emit("site", entries[1..]) == [Task("site/img/a.png")];
  }
}
