/** Paths as sequences of path components.  A relative path string such as
    `"src/demo/main.py"` is read the way `os.path.join` followed by the
    operating system reads it: split on `/`, with empty components (from
    doubled or trailing slashes) dropped. */
module Paths {
  import Text

  type Path = seq<string>

  /** Drops the empty strings from a list of components. */
  function NonEmpty(parts: seq<string>): (r: seq<string>)
    ensures forall i :: 0 <= i < |r| ==> r[i] != "" && r[i] in parts
    ensures forall i :: 0 <= i < |parts| && parts[i] != "" ==> parts[i] in r
  {
    if parts == [] then []
    else if parts[0] == "" then NonEmpty(parts[1..])
    else [parts[0]] + NonEmpty(parts[1..])
  }

  lemma {:induction false} NonEmptyAppend(a: seq<string>, b: seq<string>)
    ensures NonEmpty(a + b) == NonEmpty(a) + NonEmpty(b)
  {
    if a == [] {
      assert a + b == b;
    } else {
      assert (a + b)[0] == a[0];
      assert (a + b)[1..] == a[1..] + b;
      NonEmptyAppend(a[1..], b);
    }
  }

  /** The components a relative path string names. */
  function Components(rel: string): (r: Path)
    ensures forall i :: 0 <= i < |r| ==> r[i] != "" && '/' !in r[i]
  {
    var fields := Text.Split(rel, "/");
    Text.SplitFieldsFree(rel, "/");
    var r := NonEmpty(fields);
    assert forall i :: 0 <= i < |r| ==> r[i] != "" && '/' !in r[i] by {
      forall i | 0 <= i < |r|
        ensures r[i] != "" && '/' !in r[i]
      {
        var k :| 0 <= k < |fields| && fields[k] == r[i];
      }
    }
    r
  }

  /** Joining two relative paths with a slash concatenates their components. */
  lemma ComponentsJoin(a: string, b: string)
    ensures Components(a + "/" + b) == Components(a) + Components(b)
  {
    Text.SplitAppend(a, b, "/");
    NonEmptyAppend(Text.Split(a, "/"), Text.Split(b, "/"));
  }

  /** A non-empty name without a slash is exactly one component. */
  lemma ComponentsSingle(name: string)
    requires name != "" && '/' !in name
    ensures Components(name) == [name]
  {
    assert "/"[0] == '/';
    Text.SplitWhole(name, "/");
    assert [name][1..] == [];
    assert NonEmpty([]) == [];
    assert NonEmpty([name]) == [name] + NonEmpty([]);
  }

  /** Components are recovered from their slash-joined rendering. */
  lemma {:induction false} ComponentsOfJoin(cs: seq<string>)
    requires |cs| >= 1
    requires forall i :: 0 <= i < |cs| ==> cs[i] != "" && '/' !in cs[i]
    ensures Components(Text.Join(cs, "/")) == cs
  {
    assert "/"[0] == '/';
    Text.SplitJoin(cs, "/");
    NonEmptyAll(cs);
  }

  lemma {:induction false} NonEmptyAll(cs: seq<string>)
    requires forall i :: 0 <= i < |cs| ==> cs[i] != ""
    ensures NonEmpty(cs) == cs
  {
    if cs != [] {
      NonEmptyAll(cs[1..]);
    }
  }

  /** Python's `os.path.dirname` on a component path. */
  function Parent(p: Path): Path
    requires p != []
  {
    p[..|p| - 1]
  }

  /** Python's `os.path.dirname`, which maps the root to itself. */
  function Dirname(p: Path): (r: Path)
    ensures |r| <= |p| && r == p[..|r|]
    ensures p != [] ==> |r| == |p| - 1
  {
    if p == [] then [] else Parent(p)
  }

  /** `dirname` undoes joining one more component onto a directory. */
  lemma DirnameOfChild(d: Path, x: string)
    ensures Dirname(d + [x]) == d
  {
    assert (d + [x])[..|d|] == d;
  }

  /** The non-empty prefixes of `p`: every directory `os.makedirs(p)` needs. */
  function Prefixes(p: Path): (r: set<Path>)
    ensures forall i :: 1 <= i <= |p| ==> p[..i] in r
    ensures forall q :: q in r ==> q != [] && |q| <= |p| && q == p[..|q|]
  {
    set i | 1 <= i <= |p| :: p[..i]
  }

  /** The prefixes of a path are those of its parent plus the path itself. */
  lemma PrefixesStep(p: Path)
    requires p != []
    ensures Prefixes(p) == Prefixes(Parent(p)) + {p}
  {
    var q := Parent(p);
    forall x | x in Prefixes(p)
      ensures x in Prefixes(q) + {p}
    {
      if |x| < |p| {
        assert x == q[..|x|];
      } else {
        assert x == p[..|p|] == p;
      }
    }
    forall x | x in Prefixes(q)
      ensures x in Prefixes(p)
    {
      assert x == p[..|x|];
    }
    assert p == p[..|p|];
  }
}

/** The error conditions the scaffolder can meet, named after the Python
    exception each one stands for. */
module Errors {
  import opened Paths

  datatype Error =
    | EmptyName                          // the name prompt's "Project name cannot be empty"
    | ReservedName(name: string)         // ValueError raised by the project-name validator
    | FileExists(path: Path)             // FileExistsError: a file stands where a directory is wanted
    | NotADirectory(path: Path)          // NotADirectoryError: the parent of `path` is a file
    | FileNotFound(path: Path)           // FileNotFoundError: a missing file or parent directory
    | IsADirectory(path: Path)           // IsADirectoryError: a directory opened as a file
    | SameFile(path: Path)               // shutil.SameFileError: a file copied onto itself
    | ProjectDirectory(cause: Error)     // ValueError "Could not create project directory: …"
    | EnvironmentCreation(path: Path)    // CalledProcessError from `python -m venv`
    | FreezeLine(index: nat, parts: nat) // ValueError from dict(): a freeze line is not `name==version`

  datatype Result<+T> = Ok(value: T) | Err(error: Error)

  datatype Option<+T> = None | Some(value: T)
}

/** An abstract filesystem: a set of directories and a map from file paths to
    contents.  The empty path is the (always present) root directory under
    which the project's parent directory lives. */
module Files {
  import opened Paths
  import opened Errors

  datatype FileSystem = FileSystem(dirs: set<Path>, files: map<Path, string>)

  predicate IsDir(fs: FileSystem, p: Path) {
    p == [] || p in fs.dirs
  }

  /** A filesystem a real one could be: every entry sits in an existing
      directory and no path is both a file and a directory. */
  ghost predicate WellFormed(fs: FileSystem) {
    && [] !in fs.files
    && (forall d :: d in fs.dirs ==> d !in fs.files)
    && (forall d :: d in fs.dirs && d != [] ==> IsDir(fs, Parent(d)))
    && (forall f :: f in fs.files ==> f != [] && IsDir(fs, Parent(f)))
  }

  /** In a well-formed filesystem every ancestor of a directory is a directory. */
  lemma {:induction false} DirAncestors(fs: FileSystem, p: Path)
    requires WellFormed(fs) && IsDir(fs, p)
    ensures forall i :: 1 <= i <= |p| ==> p[..i] in fs.dirs
    decreases |p|
  {
    if p != [] {
      var q := Parent(p);
      DirAncestors(fs, q);
      forall i | 1 <= i <= |p|
        ensures p[..i] in fs.dirs
      {
        if i < |p| {
          assert p[..i] == q[..i];
        } else {
          assert p[..i] == p;
        }
      }
    }
  }

  predicate NoFilePrefix(fs: FileSystem, p: Path) {
    forall i :: 1 <= i <= |p| ==> p[..i] !in fs.files
  }

  /** No prefix of `p` is a file exactly when no prefix of its parent is one
      and `p` itself is not one. */
  lemma NoFilePrefixStep(fs: FileSystem, p: Path)
    requires p != []
    ensures NoFilePrefix(fs, p) <==> NoFilePrefix(fs, Parent(p)) && p !in fs.files
  {
    var q := Parent(p);
    assert forall i :: 1 <= i <= |q| ==> q[..i] == p[..i];
    assert p[..|p|] == p;
  }

  /** Python's `os.makedirs(p, exist_ok=True)`: an existing directory is not
      an error; a file at `p` or on the way to it is.  Missing ancestors are
      created from the top down. */
  function MakeDirs(fs: FileSystem, p: Path): (r: Result<FileSystem>)
    ensures r.Ok? ==> r.value.files == fs.files && fs.dirs <= r.value.dirs && IsDir(r.value, p)
    ensures r.Ok? ==> r.value.dirs <= fs.dirs + Prefixes(p)
    ensures r.Err? ==> r.error.FileExists? || r.error.NotADirectory?
    decreases |p|
  {
    if IsDir(fs, p) then
      Ok(fs)
    else if p in fs.files then
      Err(FileExists(p))
    else if Parent(p) in fs.files then
      Err(NotADirectory(p))
    else
      PrefixesStep(p);
      match MakeDirs(fs, Parent(p))
      case Err(e) => Err(e)
      case Ok(fs1) => Ok(fs1.(dirs := fs1.dirs + {p}))
  }

  /** On a well-formed filesystem `os.makedirs(p, exist_ok=True)` succeeds
      exactly when no prefix of `p` is a file, and then adds every prefix of
      `p` as a directory and keeps the filesystem well formed. */
  lemma {:induction false} MakeDirsWellFormed(fs: FileSystem, p: Path)
    requires WellFormed(fs)
    ensures MakeDirs(fs, p).Ok? <==> NoFilePrefix(fs, p)
    ensures MakeDirs(fs, p).Ok? ==>
      WellFormed(MakeDirs(fs, p).value) && MakeDirs(fs, p).value.dirs == fs.dirs + Prefixes(p)
    decreases |p|
  {
    if IsDir(fs, p) {
      DirAncestors(fs, p);
      forall x | x in Prefixes(p) ensures x in fs.dirs {
        assert x == p[..|x|];
      }
    } else if p in fs.files {
      assert p[..|p|] == p;
    } else if Parent(p) in fs.files {
      assert p[..|p| - 1] == Parent(p);
    } else {
      var q := Parent(p);
      MakeDirsWellFormed(fs, q);
      NoFilePrefixStep(fs, p);
      PrefixesStep(p);
    }
  }

  /** Running `os.makedirs` twice on the same path is the same as once. */
  lemma MakeDirsIdempotent(fs: FileSystem, p: Path)
    requires MakeDirs(fs, p).Ok?
    ensures MakeDirs(MakeDirs(fs, p).value, p) == MakeDirs(fs, p)
  {
  }

  /** Python's `open(p).read()`. */
  function ReadFile(fs: FileSystem, p: Path): (r: Result<string>)
    ensures r.Ok? <==> p in fs.files
    ensures r.Ok? ==> r.value == fs.files[p]
  {
    if p in fs.files then Ok(fs.files[p])
    else if IsDir(fs, p) then Err(IsADirectory(p))
    else Err(FileNotFound(p))
  }

  /** What reading `p` gives, with a missing file read as empty: the text a
      file opened for appending starts from. */
  function Contents(fs: FileSystem, p: Path): string {
    if p in fs.files then fs.files[p] else ""
  }

  /** Whether `open(p, "w")` or `open(p, "a")` can open `p`: it is not a
      directory and its parent directory exists. */
  predicate Writable(fs: FileSystem, p: Path) {
    !IsDir(fs, p) && IsDir(fs, Parent(p))
  }

  function OpenError(fs: FileSystem, p: Path): Error
    requires !Writable(fs, p)
  {
    if IsDir(fs, p) then IsADirectory(p)
    else if Parent(p) in fs.files then NotADirectory(p)
    else FileNotFound(p)
  }

  /** Python's `open(p, "w").write(content)`: the file now holds exactly
      `content`, whatever it held before; nothing else changes. */
  function WriteFile(fs: FileSystem, p: Path, content: string): (r: Result<FileSystem>)
    ensures r.Ok? <==> Writable(fs, p)
    ensures r.Ok? ==> r.value.dirs == fs.dirs && r.value.files.Keys == fs.files.Keys + {p}
    ensures r.Ok? ==> r.value.files[p] == content
    ensures r.Ok? ==> forall q :: q in fs.files && q != p ==> r.value.files[q] == fs.files[q]
    ensures WellFormed(fs) && r.Ok? ==> WellFormed(r.value)
  {
    if Writable(fs, p) then Ok(fs.(files := fs.files[p := content]))
    else Err(OpenError(fs, p))
  }

  /** Python's `open(p, "a").write(text)`: a missing file is created, an
      existing file keeps its contents as a prefix and gains `text` at the end;
      nothing else changes. */
  function AppendFile(fs: FileSystem, p: Path, text: string): (r: Result<FileSystem>)
    ensures r.Ok? <==> Writable(fs, p)
    ensures r.Ok? ==> r.value.dirs == fs.dirs && r.value.files.Keys == fs.files.Keys + {p}
    ensures r.Ok? ==> r.value.files[p] == Contents(fs, p) + text
    ensures r.Ok? ==> forall q :: q in fs.files && q != p ==> r.value.files[q] == fs.files[q]
    ensures WellFormed(fs) && r.Ok? ==> WellFormed(r.value)
  {
    if Writable(fs, p) then
      var old_ := if p in fs.files then fs.files[p] else "";
      Ok(fs.(files := fs.files[p := old_ + text]))
    else Err(OpenError(fs, p))
  }

  /** Python's `shutil.copyfile(src, dst)`: `dst` gets the contents of `src`. */
  function CopyFile(fs: FileSystem, src: Path, dst: Path): (r: Result<FileSystem>)
    ensures r.Ok? <==> src != dst && src in fs.files && Writable(fs, dst)
    ensures r.Ok? ==> r.value.dirs == fs.dirs && r.value.files == fs.files[dst := fs.files[src]]
    ensures WellFormed(fs) && r.Ok? ==> WellFormed(r.value)
  {
    if src == dst then Err(SameFile(src))
    else
      match ReadFile(fs, src)
      case Err(e) => Err(e)
      case Ok(content) => WriteFile(fs, dst, content)
  }

  /** Reading a file back after writing it yields what was written. */
  lemma ReadAfterWrite(fs: FileSystem, p: Path, content: string)
    requires WriteFile(fs, p, content).Ok?
    ensures ReadFile(WriteFile(fs, p, content).value, p) == Ok(content)
  {
  }

  /** Appending nothing leaves an existing file as it was. */
  lemma AppendNothing(fs: FileSystem, p: Path)
    requires p in fs.files && Writable(fs, p)
    ensures AppendFile(fs, p, "") == Ok(fs)
  {
    assert fs.files[p] + "" == fs.files[p];
    assert fs.files[p := fs.files[p]] == fs.files;
  }
}
