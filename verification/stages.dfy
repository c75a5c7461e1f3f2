/** What the two scaffolder variants share: a run that may stop part-way
    (nothing is rolled back, so the filesystem at the stopping point is part of
    the result), copying and writing lists of files, and creating the virtual
    environment. */
module Stages {
  import opened Text
  import opened Paths
  import opened Errors
  import opened Files
  import opened Install

  /** A stage's result: the filesystem as the stage left it and the error that
      stopped it, if any. */
  datatype Partial = Partial(fs: FileSystem, failure: Option<Error>)

  /** How a whole run ends. */
  datatype Outcome = Created(attempts: Attempts) | Failed(error: Error)

  datatype Run = Run(fs: FileSystem, outcome: Outcome)

  /** `q` lies inside the directory `root` (or is `root` itself). */
  predicate Under(q: Path, root: Path) {
    |root| <= |q| && q[..|root|] == root
  }

  /** Every file outside `root` is still there with the same contents. */
  predicate OutsideKept(fs: FileSystem, fs': FileSystem, root: Path) {
    forall q :: q in fs.files && !Under(q, root) ==> q in fs'.files && fs'.files[q] == fs.files[q]
  }

  lemma OutsideKeptTrans(a: FileSystem, b: FileSystem, c: FileSystem, root: Path)
    requires OutsideKept(a, b, root) && OutsideKept(b, c, root)
    ensures OutsideKept(a, c, root)
  {
  }

  /** One `shutil.copyfile(src, dst)` of a file list. */
  datatype Copy = Copy(src: Path, dst: Path)

  function Dsts(copies: seq<Copy>): set<Path> {
    set i | 0 <= i < |copies| :: copies[i].dst
  }

  lemma DstsTail(copies: seq<Copy>)
    requires copies != []
    ensures copies[0].dst in Dsts(copies)
    ensures forall q :: q in Dsts(copies[1..]) ==> q in Dsts(copies)
  {
    forall q | q in Dsts(copies[1..])
      ensures q in Dsts(copies)
    {
      var i :| 0 <= i < |copies| - 1 && q == copies[1..][i].dst;
      assert q == copies[i + 1].dst;
    }
  }

  lemma DstsStep(copies: seq<Copy>)
    requires copies != []
    ensures Dsts(copies) == {copies[0].dst} + Dsts(copies[1..])
  {
    forall q | q in Dsts(copies)
      ensures q in {copies[0].dst} + Dsts(copies[1..])
    {
      var i :| 0 <= i < |copies| && q == copies[i].dst;
      if i > 0 {
        assert q == copies[1..][i - 1].dst;
      }
    }
    forall q | q in Dsts(copies[1..])
      ensures q in Dsts(copies)
    {
      var i :| 0 <= i < |copies| - 1 && q == copies[1..][i].dst;
      assert q == copies[i + 1].dst;
    }
  }

  /** One pass of the copy loop: `os.makedirs(dirname(dst), exist_ok=True)`
      then `shutil.copyfile(src, dst)`.  Directories may be added; the only
      file that can change is the destination, which gets the source's
      contents, and a missing source always fails. */
  function CopyOne(fs: FileSystem, c: Copy): (r: Partial)
    ensures fs.dirs <= r.fs.dirs
    ensures r.failure.Some? ==> r.fs.files == fs.files
    ensures r.failure.None? ==> c.src in fs.files && r.fs.files == fs.files[c.dst := fs.files[c.src]]
    ensures c.src !in fs.files ==> r.failure.Some?
  {
    match MakeDirs(fs, Dirname(c.dst))
    case Err(e) => Partial(fs, Some(e))
    case Ok(fs1) =>
      match CopyFile(fs1, c.src, c.dst)
      case Err(e) => Partial(fs1, Some(e))
      case Ok(fs2) => Partial(fs2, None)
  }

  /** The copy loop: one `CopyOne` per entry; the first error stops the loop
      with the copies made so far in place.  No directory or file disappears,
      and when the loop runs to the end every destination exists;
      `CopyAllOnlyDsts` adds that only destinations are written. */
  function CopyAll(fs: FileSystem, copies: seq<Copy>): (r: Partial)
    ensures fs.dirs <= r.fs.dirs
    ensures forall q :: q in fs.files ==> q in r.fs.files
    ensures r.failure.None? ==> forall i :: 0 <= i < |copies| ==> copies[i].dst in r.fs.files
    decreases |copies|
  {
    if copies == [] then Partial(fs, None)
    else
      var step := CopyOne(fs, copies[0]);
      if step.failure.Some? then step
      else
        var r := CopyAll(step.fs, copies[1..]);
        assert copies[0].dst in r.fs.files by {
          assert copies[0].dst in step.fs.files;
        }
        assert forall i :: 1 <= i < |copies| ==> copies[i].dst == copies[1..][i - 1].dst;
        r
  }

  /** The copy loop writes only destinations: a file it leaves behind was
      there before or is a destination, and every other file keeps its
      contents. */
  lemma {:induction false} CopyAllOnlyDsts(fs: FileSystem, copies: seq<Copy>)
    ensures forall q :: q in CopyAll(fs, copies).fs.files ==> q in fs.files || q in Dsts(copies)
    ensures forall q :: q in fs.files && q !in Dsts(copies) ==>
      CopyAll(fs, copies).fs.files[q] == fs.files[q]
    decreases |copies|
  {
    if copies != [] {
      CopyAllStep(fs, copies);
      var step := CopyOne(fs, copies[0]);
      if step.failure.None? {
        CopyAllOnlyDsts(step.fs, copies[1..]);
        DstsTail(copies);
      }
    }
  }

  /** When no destination is also a source and the destinations differ, a
      completed copy loop leaves each destination holding exactly what its
      source held beforehand. */
  lemma {:induction false} CopyAllContents(fs: FileSystem, copies: seq<Copy>)
    requires forall i, j :: 0 <= i < |copies| && 0 <= j < |copies| ==> copies[i].dst != copies[j].src
    requires forall i, j :: 0 <= i < j < |copies| ==> copies[i].dst != copies[j].dst
    requires CopyAll(fs, copies).failure.None?
    ensures forall i :: 0 <= i < |copies| ==>
      copies[i].src in fs.files && CopyAll(fs, copies).fs.files[copies[i].dst] == fs.files[copies[i].src]
    decreases |copies|
  {
    if copies != [] {
      var c := copies[0];
      var fs2 := CopyOne(fs, c).fs;
      var rest := copies[1..];
      CopyAllContents(fs2, rest);
      CopyAllOnlyDsts(fs2, rest);
      DstsStep(copies);
      forall i | 0 <= i < |copies|
        ensures copies[i].src in fs.files
        ensures CopyAll(fs, copies).fs.files[copies[i].dst] == fs.files[copies[i].src]
      {
        if i == 0 {
          assert c.dst !in Dsts(rest);
        } else {
          assert copies[i] == rest[i - 1];
          assert copies[i].src != c.dst;
        }
      }
    }
  }

  /** The copy loop stops at a failed first copy, and otherwise goes on with
      the rest of the list from the filesystem that copy left. */
  lemma CopyAllStep(fs: FileSystem, copies: seq<Copy>)
    requires copies != []
    ensures CopyOne(fs, copies[0]).failure.Some? ==> CopyAll(fs, copies) == CopyOne(fs, copies[0])
    ensures CopyOne(fs, copies[0]).failure.None? ==>
      CopyAll(fs, copies) == CopyAll(CopyOne(fs, copies[0]).fs, copies[1..])
  {
  }

  /** A source file that is missing, and that no earlier copy creates, stops
      the copy loop with an error. */
  lemma {:induction false} CopyAllMissingSource(fs: FileSystem, copies: seq<Copy>, k: nat)
    requires k < |copies| && copies[k].src !in fs.files
    requires forall i :: 0 <= i < k ==> copies[i].dst != copies[k].src
    ensures CopyAll(fs, copies).failure.Some?
    decreases k
  {
    var step := CopyOne(fs, copies[0]);
    if step.failure.Some? {
      CopyAllFails(fs, copies);
    } else {
      MissingSourceShift(fs, step.fs, copies, k);
      CopyAllMissingSource(step.fs, copies[1..], k - 1);
      CopyAllFails(fs, copies);
    }
  }

  /** The copy loop fails when its first copy fails, or when the rest of the
      list fails after it. */
  lemma CopyAllFails(fs: FileSystem, copies: seq<Copy>)
    requires copies != []
    requires CopyOne(fs, copies[0]).failure.Some?
      || CopyAll(CopyOne(fs, copies[0]).fs, copies[1..]).failure.Some?
    ensures CopyAll(fs, copies).failure.Some?
  {
    CopyAllStep(fs, copies);
  }

  /** After the first copy the same source is still missing, one place
      earlier in the rest of the list. */
  lemma MissingSourceShift(fs: FileSystem, fs2: FileSystem, copies: seq<Copy>, k: nat)
    requires k < |copies| && copies[k].src !in fs.files
    requires forall i :: 0 <= i < k ==> copies[i].dst != copies[k].src
    requires copies[0].src in fs.files && fs2.files == fs.files[copies[0].dst := fs.files[copies[0].src]]
    ensures 0 < k && copies[1..][k - 1].src !in fs2.files
    ensures forall i :: 0 <= i < k - 1 ==> copies[1..][i].dst != copies[1..][k - 1].src
  {
    var rest := copies[1..];
    assert rest[k - 1] == copies[k];
    forall i | 0 <= i < k - 1
      ensures rest[i].dst != rest[k - 1].src
    {
      assert rest[i] == copies[i + 1];
    }
  }

  /** A completed copy loop whose destinations all lie under `root` changes no
      file outside it. */
  lemma CopyAllInside(fs: FileSystem, copies: seq<Copy>, root: Path)
    requires forall i :: 0 <= i < |copies| ==> Under(copies[i].dst, root)
    ensures OutsideKept(fs, CopyAll(fs, copies).fs, root)
  {
    CopyAllOnlyDsts(fs, copies);
  }

  /** One `open(path, "w").write(content)` of a file list. */
  datatype Write = Write(path: Path, content: string)

  function WritePaths(ws: seq<Write>): set<Path> {
    set i | 0 <= i < |ws| :: ws[i].path
  }

  lemma WritePathsStep(ws: seq<Write>)
    requires ws != []
    ensures WritePaths(ws) == {ws[0].path} + WritePaths(ws[1..])
  {
    forall q | q in WritePaths(ws)
      ensures q in {ws[0].path} + WritePaths(ws[1..])
    {
      var i :| 0 <= i < |ws| && q == ws[i].path;
      if i > 0 {
        assert q == ws[1..][i - 1].path;
      }
    }
    forall q | q in WritePaths(ws[1..])
      ensures q in WritePaths(ws)
    {
      var i :| 0 <= i < |ws| - 1 && q == ws[1..][i].path;
      assert q == ws[i + 1].path;
    }
  }

  /** The write loop: each file is opened for writing and given its contents;
      the first error stops the loop with the earlier files in place.  Only
      the listed paths are written. */
  function WriteAll(fs: FileSystem, ws: seq<Write>): (r: Partial)
    ensures r.fs.dirs == fs.dirs
    ensures forall q :: q in fs.files ==> q in r.fs.files
    ensures forall q :: q in r.fs.files ==> q in fs.files || q in WritePaths(ws)
    ensures forall q :: q in fs.files && q !in WritePaths(ws) ==> r.fs.files[q] == fs.files[q]
    decreases |ws|
  {
    if ws == [] then Partial(fs, None)
    else
      WritePathsStep(ws);
      match WriteFile(fs, ws[0].path, ws[0].content)
      case Err(e) => Partial(fs, Some(e))
      case Ok(fs1) =>
        var r := WriteAll(fs1, ws[1..]);
        assert forall i :: 1 <= i < |ws| ==> ws[i] == ws[1..][i - 1];
        r
  }

  /** A write loop whose paths all lie under `root` changes no file outside it. */
  lemma WriteAllInside(fs: FileSystem, ws: seq<Write>, root: Path)
    requires forall i :: 0 <= i < |ws| ==> Under(ws[i].path, root)
    ensures OutsideKept(fs, WriteAll(fs, ws).fs, root)
  {
    assert forall q :: q in WritePaths(ws) ==> Under(q, root);
  }

  /** The write loop completes exactly when every listed path can be opened
      for writing. */
  lemma {:induction false} WriteAllCompletes(fs: FileSystem, ws: seq<Write>)
    ensures WriteAll(fs, ws).failure.None? <==> forall i :: 0 <= i < |ws| ==> Writable(fs, ws[i].path)
    decreases |ws|
  {
    if ws != [] {
      match WriteFile(fs, ws[0].path, ws[0].content)
      case Err(_) =>
      case Ok(fs1) =>
        WriteAllCompletes(fs1, ws[1..]);
        assert forall i :: 1 <= i < |ws| ==> ws[i] == ws[1..][i - 1];
        assert forall p :: Writable(fs1, p) <==> Writable(fs, p);
    }
  }

  /** After a completed write loop a listed path that no later entry names
      again holds that entry's content: the last write wins. */
  lemma {:induction false} WriteAllContents(fs: FileSystem, ws: seq<Write>, i: nat)
    requires i < |ws| && forall j :: i < j < |ws| ==> ws[j].path != ws[i].path
    requires WriteAll(fs, ws).failure.None?
    ensures ws[i].path in WriteAll(fs, ws).fs.files
    ensures WriteAll(fs, ws).fs.files[ws[i].path] == ws[i].content
    decreases |ws|
  {
    var fs1 := WriteFile(fs, ws[0].path, ws[0].content).value;
    var rest := ws[1..];
    assert WriteAll(fs, ws) == WriteAll(fs1, rest);
    if i == 0 {
      WritePathsStep(ws);
      assert ws[0].path !in WritePaths(rest) by {
        forall j | 0 <= j < |rest|
          ensures rest[j].path != ws[0].path
        {
          assert rest[j] == ws[j + 1];
        }
      }
    } else {
      assert ws[i] == rest[i - 1];
      forall j | i - 1 < j < |rest|
        ensures rest[j].path != rest[i - 1].path
      {
        assert rest[j] == ws[j + 1];
      }
      WriteAllContents(fs1, rest, i - 1);
    }
  }

  /** No path is listed twice. */
  predicate DistinctPaths(ws: seq<Write>) {
    forall i, j :: 0 <= i < j < |ws| ==> ws[i].path != ws[j].path
  }

  /** With distinct paths, a completed write loop leaves every listed path
      holding its content. */
  lemma WriteAllDistinct(fs: FileSystem, ws: seq<Write>)
    requires DistinctPaths(ws)
    requires WriteAll(fs, ws).failure.None?
    ensures forall i :: 0 <= i < |ws| ==>
      ws[i].path in WriteAll(fs, ws).fs.files && WriteAll(fs, ws).fs.files[ws[i].path] == ws[i].content
  {
    forall i | 0 <= i < |ws|
      ensures ws[i].path in WriteAll(fs, ws).fs.files && WriteAll(fs, ws).fs.files[ws[i].path] == ws[i].content
    {
      WriteAllContents(fs, ws, i);
    }
  }

  /** The append loop: each file is opened for appending and gains its text;
      the first error stops the loop with the earlier appends in place.  Only
      appends happen: directories stay, no file disappears and every file's
      old contents are a prefix of its new contents. */
  function AppendAll(fs: FileSystem, ws: seq<Write>): (r: Partial)
    ensures r.fs.dirs == fs.dirs
    ensures forall q :: q in fs.files ==> q in r.fs.files && fs.files[q] <= r.fs.files[q]
    ensures forall q :: q in r.fs.files ==> q in fs.files || q in WritePaths(ws)
    ensures forall q :: q in fs.files && q !in WritePaths(ws) ==> r.fs.files[q] == fs.files[q]
    decreases |ws|
  {
    if ws == [] then Partial(fs, None)
    else
      WritePathsStep(ws);
      match AppendFile(fs, ws[0].path, ws[0].content)
      case Err(e) => Partial(fs, Some(e))
      case Ok(fs1) =>
        var r := AppendAll(fs1, ws[1..]);
        assert forall i :: 1 <= i < |ws| ==> ws[i] == ws[1..][i - 1];
        assert forall q :: q in fs.files ==> fs.files[q] <= fs1.files[q];
        r
  }

  /** The append loop completes exactly when every listed path can be
      opened for appending. */
  lemma {:induction false} AppendAllCompletes(fs: FileSystem, ws: seq<Write>)
    ensures AppendAll(fs, ws).failure.None? <==> forall i :: 0 <= i < |ws| ==> Writable(fs, ws[i].path)
    decreases |ws|
  {
    if ws != [] {
      match AppendFile(fs, ws[0].path, ws[0].content)
      case Err(_) =>
      case Ok(fs1) =>
        AppendAllCompletes(fs1, ws[1..]);
        assert forall i :: 1 <= i < |ws| ==> ws[i] == ws[1..][i - 1];
        assert forall p :: Writable(fs1, p) <==> Writable(fs, p);
    }
  }

  /** After a completed append loop over distinct paths, each path holds what
      it held before (nothing, if it was missing) followed by its text. */
  lemma AppendAllContents(fs: FileSystem, ws: seq<Write>)
    requires DistinctPaths(ws)
    requires AppendAll(fs, ws).failure.None?
    ensures forall i :: 0 <= i < |ws| ==>
      ws[i].path in AppendAll(fs, ws).fs.files
      && AppendAll(fs, ws).fs.files[ws[i].path] == Contents(fs, ws[i].path) + ws[i].content
  {
    forall i | 0 <= i < |ws|
      ensures ws[i].path in AppendAll(fs, ws).fs.files
      ensures AppendAll(fs, ws).fs.files[ws[i].path] == Contents(fs, ws[i].path) + ws[i].content
    {
      AppendAllContentsAt(fs, ws, i);
    }
  }

  /** `AppendAllContents` for the entry at index `i`. */
  lemma {:induction false} AppendAllContentsAt(fs: FileSystem, ws: seq<Write>, i: nat)
    requires DistinctPaths(ws) && i < |ws|
    requires AppendAll(fs, ws).failure.None?
    ensures ws[i].path in AppendAll(fs, ws).fs.files
    ensures AppendAll(fs, ws).fs.files[ws[i].path] == Contents(fs, ws[i].path) + ws[i].content
    decreases |ws|
  {
    var fs1 := AppendFile(fs, ws[0].path, ws[0].content).value;
    var rest := ws[1..];
    var p := ws[i].path;
    assert AppendAll(fs, ws) == AppendAll(fs1, rest);
    if i == 0 {
      assert p !in WritePaths(rest) by {
        forall j | 0 <= j < |rest|
          ensures rest[j].path != p
        {
          assert rest[j] == ws[j + 1];
        }
      }
      assert fs1.files[p] == Contents(fs, p) + ws[0].content;
    } else {
      assert DistinctPaths(rest) by {
        forall j, k | 0 <= j < k < |rest|
          ensures rest[j].path != rest[k].path
        {
          assert rest[j] == ws[j + 1] && rest[k] == ws[k + 1];
        }
      }
      AppendAllContentsAt(fs1, rest, i - 1);
      assert ws[i] == rest[i - 1];
      assert p != ws[0].path;
      assert Contents(fs1, p) == Contents(fs, p);
    }
  }

  function ImportStatements(packages: seq<string>): (r: seq<string>)
    ensures |r| == |packages|
    ensures forall i :: 0 <= i < |packages| ==> r[i] == "import " + packages[i]
  {
    if packages == [] then [] else ["import " + packages[0]] + ImportStatements(packages[1..])
  }

  /** The `import p` lines, one per package, that both variants add to the
      package's `main.py`. */
  function ImportLines(packages: seq<string>): string {
    Lines(ImportStatements(packages))
  }

  lemma ImportKeywordPlain()
    ensures NoLineBreak("import ")
  {
  }

  /** The import block splits back into one `import` statement per package. */
  lemma ImportLinesRoundTrip(packages: seq<string>)
    requires forall i :: 0 <= i < |packages| ==> NoLineBreak(packages[i])
    ensures SplitLines(ImportLines(packages)) == ImportStatements(packages)
  {
    var ls := ImportStatements(packages);
    ImportKeywordPlain();
    forall i | 0 <= i < |ls|
      ensures NoLineBreak(ls[i])
    {
      NoLineBreakJoin("import ", packages[i]);
    }
    SplitLinesOfLines(ls);
  }

  /** The path of the virtual environment: `<root>/<name>_venv`. */
  function VenvDir(root: Path, name: string): (r: Path)
    ensures Under(r, root)
  {
    root + Components(name + "_venv")
  }

  /** `python -m venv <root>/<name>_venv`.  Whether the tool succeeds is a
      parameter; on success the environment's directory exists, and a file in
      its way makes the tool fail.  Files are untouched either way. */
  function CreateVenv(fs: FileSystem, root: Path, name: string, created: bool): (r: Result<FileSystem>)
    ensures r.Ok? ==> created && r.value.files == fs.files && fs.dirs <= r.value.dirs
    ensures r.Ok? ==> IsDir(r.value, VenvDir(root, name))
    ensures r.Err? ==> r.error == EnvironmentCreation(VenvDir(root, name))
    ensures !created ==> r.Err?
  {
    if !created then Err(EnvironmentCreation(VenvDir(root, name)))
    else
      match MakeDirs(fs, VenvDir(root, name))
      case Err(_) => Err(EnvironmentCreation(VenvDir(root, name)))
      case Ok(fs1) => Ok(fs1)
  }
}
