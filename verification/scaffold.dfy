/** The configurable scaffolder (the `dev_template` package): validate the
    name, create the project and its subdirectories, copy the template files
    named by the file plan, create the virtual environment, install the
    requested packages, and record the ones that installed in
    `requirements.txt`, `pyproject.toml` and the package's `main.py`. */
module Scaffold {
  import opened Text
  import opened Paths
  import opened Errors
  import opened Files
  import opened Names
  import opened Install
  import opened Freeze
  import opened Stages

  /** The replacement field destination paths may hold. */
  const Placeholder: string := "{project_name}"

  /** One entry of the file table: the destination, relative to the project
      directory and possibly holding the placeholder, and the template file,
      relative to the template directory, that is copied there. */
  datatype FileSpec = FileSpec(dest: string, template: string)

  /** The entries every project gets, in table order. */
  const CoreFiles: seq<FileSpec> := [
    FileSpec("README.md", "README.md"),
    FileSpec(".gitignore", ".gitignore"),
    FileSpec("requirements.txt", "requirements.txt"),
    FileSpec("src/{project_name}/__init__.py", "src/__init__.py"),
    FileSpec("src/{project_name}/main.py", "src/main.py"),
    FileSpec("tests/__init__.py", "tests/__init__.py"),
    FileSpec("tests/test_main.py", "tests/test_main.py")
  ]

  const SetupEntry: FileSpec := FileSpec("setup.py", "setup.py")
  const PyprojectEntry: FileSpec := FileSpec("pyproject.toml", "pyproject.toml")

  /** The file table: the seven core entries, then `setup.py` unless it is
      skipped, then `pyproject.toml` unless it is skipped. */
  function FilePlan(skipSetup: bool, skipPyproject: bool): (r: seq<FileSpec>)
    ensures |r| == 7 + (if skipSetup then 0 else 1) + (if skipPyproject then 0 else 1)
    ensures 7 <= |r| <= 9 && r[..7] == CoreFiles
    ensures SetupEntry in r <==> !skipSetup
    ensures PyprojectEntry in r <==> !skipPyproject
    ensures !skipSetup ==> r[7] == SetupEntry
    ensures !skipPyproject ==> r[|r| - 1] == PyprojectEntry
    ensures !skipSetup && !skipPyproject ==> r[7] == SetupEntry && r[8] == PyprojectEntry
  {
    var setup := if skipSetup then [] else [SetupEntry];
    var pyproject := if skipPyproject then [] else [PyprojectEntry];
    var r := CoreFiles + setup + pyproject;
    assert r[..7] == CoreFiles;
    assert SetupEntry !in CoreFiles && PyprojectEntry !in CoreFiles;
    assert SetupEntry in r ==> SetupEntry in setup by {
      if SetupEntry in r {
        var i :| 0 <= i < |r| && r[i] == SetupEntry;
        assert i >= 7 ==> r[i] in setup + pyproject;
      }
    }
    assert PyprojectEntry in r ==> PyprojectEntry in pyproject by {
      if PyprojectEntry in r {
        var i :| 0 <= i < |r| && r[i] == PyprojectEntry;
        assert i >= 7 ==> r[i] in setup + pyproject;
      }
    }
    r
  }

  /** The configuration values the scaffolder reads. */
  datatype Settings = Settings(
    skipSetup: bool,
    skipPyproject: bool,
    templateDir: Path,
    reserved: set<string>)

  /** What the user asked for. */
  datatype Request = Request(projectPath: Path, name: string, packages: seq<string>)

  /** What the outside world does: whether `python -m venv` succeeds, which
      packages `pip install` manages to install, and what `pip freeze` prints. */
  datatype World = World(venvCreated: bool, installs: string -> bool, freeze: string)

  /** The chosen location with the project name joined on, as `os.path.join` does. */
  function ProjectRoot(projectPath: Path, name: string): (r: Path)
    ensures Under(r, projectPath)
  {
    projectPath + Components(name)
  }

  /** A plain project name, non-empty and without a slash, names one directory
      directly inside the chosen location. */
  lemma ProjectRootOfPlainName(projectPath: Path, name: string)
    requires name != "" && '/' !in name
    ensures ProjectRoot(projectPath, name) == projectPath + [name]
    ensures Dirname(ProjectRoot(projectPath, name)) == projectPath
  {
    ComponentsSingle(name);
    DirnameOfChild(projectPath, name);
  }

  /** The package directory `<root>/src/<name>`. */
  function PackageDir(root: Path, name: string): (r: Path)
    ensures Under(r, root) && |r| > |root|
  {
    root + ["src"] + Components(name)
  }

  /** A relative path `<a>/<name>/<b>` splits into `a`, the components of the
      name, and `b`. */
  lemma NestedComponents(a: string, name: string, b: string)
    requires a != "" && '/' !in a && b != "" && '/' !in b
    ensures Components(a + "/" + name + "/" + b) == [a] + Components(name) + [b]
  {
    assert a + "/" + name + "/" + b == a + "/" + (name + "/" + b);
    ComponentsJoin(a, name + "/" + b);
    ComponentsJoin(name, b);
    ComponentsSingle(a);
    ComponentsSingle(b);
  }

  /** The package's `main.py`, as the update loop names it:
      `<root>/src/<name>/main.py`. */
  function MainFile(root: Path, name: string): (r: Path)
    ensures r == PackageDir(root, name) + ["main.py"]
  {
    assert "src/" + name + "/main.py" == "src" + "/" + name + "/" + "main.py";
    NestedComponents("src", name, "main.py");
    root + Components("src/" + name + "/main.py")
  }

  /** Where a table entry is copied: the destination with the placeholder
      replaced by the project name, under the project directory. */
  function Target(root: Path, name: string, spec: FileSpec): (r: Path)
    ensures Under(r, root)
  {
    root + Components(ReplaceAll(spec.dest, Placeholder, name))
  }

  function Copies(root: Path, name: string, templateDir: Path, plan: seq<FileSpec>): (r: seq<Copy>)
    ensures |r| == |plan|
    ensures forall i :: 0 <= i < |plan| ==>
      r[i] == Copy(templateDir + Components(plan[i].template), Target(root, name, plan[i]))
    ensures forall i :: 0 <= i < |r| ==> Under(r[i].dst, root)
  {
    if plan == [] then []
    else
      var c := Copy(templateDir + Components(plan[0].template), Target(root, name, plan[0]));
      [c] + Copies(root, name, templateDir, plan[1..])
  }

  /** An entry `<a>/{project_name}/<b>` is copied to `<root>/<a>/<name…>/<b>`,
      whatever slashes the name holds. */
  lemma PlaceholderTarget(root: Path, name: string, a: string, b: string, template: string)
    requires a != "" && '/' !in a && '{' !in a
    requires b != "" && '/' !in b && '{' !in b
    ensures Target(root, name, FileSpec(a + "/" + Placeholder + "/" + b, template))
      == root + [a] + Components(name) + [b]
  {
    var before := a + "/";
    var after := "/" + b;
    assert a + "/" + Placeholder + "/" + b == before + Placeholder + after;
    assert Placeholder[0] == '{';
    ReplaceAllOnce(before, after, Placeholder, name);
    ReplaceAllAbsent(after, Placeholder, name);
    assert before + name + after == a + "/" + name + "/" + b;
    NestedComponents(a, name, b);
  }

  /** The package's `main.py`, which reconciliation appends to, is where the
      fifth table entry was copied. */
  lemma MainFileIsCopied(root: Path, name: string)
    ensures Target(root, name, CoreFiles[4]) == MainFile(root, name)
  {
    assert CoreFiles[4].dest == "src" + "/" + Placeholder + "/" + "main.py";
    PlaceholderTarget(root, name, "src", "main.py", CoreFiles[4].template);
  }

  /** An entry whose destination holds no placeholder is copied to that
      destination's components under the project directory. */
  lemma PlainTarget(root: Path, name: string, spec: FileSpec)
    requires '{' !in spec.dest
    ensures Target(root, name, spec) == root + Components(spec.dest)
  {
    assert Placeholder[0] == '{';
    ReplaceAllAbsent(spec.dest, Placeholder, name);
  }

  /** An entry naming a file at the top of the project. */
  lemma TopTarget(root: Path, name: string, spec: FileSpec)
    requires spec.dest != "" && '{' !in spec.dest && '/' !in spec.dest
    ensures Target(root, name, spec) == root + [spec.dest]
  {
    PlainTarget(root, name, spec);
    ComponentsSingle(spec.dest);
  }

  /** An entry naming a file in `tests`. */
  lemma TestsTarget(root: Path, name: string, spec: FileSpec, file: string)
    requires spec.dest == "tests" + "/" + file
    requires file != "" && '{' !in file && '/' !in file
    ensures Target(root, name, spec) == root + ["tests", file]
  {
    PlainTarget(root, name, spec);
    ComponentsJoin("tests", file);
    ComponentsSingle("tests");
    ComponentsSingle(file);
  }

  /** For each core entry, the first component below the project directory
      and the file name it is copied to. */
  const CoreEnds: seq<(string, string)> := [
    ("README.md", "README.md"), (".gitignore", ".gitignore"),
    ("requirements.txt", "requirements.txt"), ("src", "__init__.py"), ("src", "main.py"),
    ("tests", "__init__.py"), ("tests", "test_main.py")
  ]

  /** The same for the whole table. */
  function PlanEnds(skipSetup: bool, skipPyproject: bool): seq<(string, string)> {
    CoreEnds
    + (if skipSetup then [] else [("setup.py", "setup.py")])
    + (if skipPyproject then [] else [("pyproject.toml", "pyproject.toml")])
  }

  /** The first component and file name of a path below `root`. */
  function Ends(root: Path, d: Path): (string, string)
    requires |d| > |root|
  {
    (d[|root|], d[|d| - 1])
  }

  /** Where each core entry is copied. */
  lemma ReadmeTarget(root: Path, name: string)
    ensures Target(root, name, CoreFiles[0]) == root + ["README.md"]
  {
    TopTarget(root, name, CoreFiles[0]);
  }

  lemma GitignoreTarget(root: Path, name: string)
    ensures Target(root, name, CoreFiles[1]) == root + [".gitignore"]
  {
    TopTarget(root, name, CoreFiles[1]);
  }

  lemma RequirementsTarget(root: Path, name: string)
    ensures Target(root, name, CoreFiles[2]) == RequirementsFile(root)
  {
    TopTarget(root, name, CoreFiles[2]);
  }

  lemma PackageInitTarget(root: Path, name: string)
    ensures Target(root, name, CoreFiles[3]) == PackageDir(root, name) + ["__init__.py"]
  {
    assert CoreFiles[3].dest == "src" + "/" + Placeholder + "/" + "__init__.py";
    PlaceholderTarget(root, name, "src", "__init__.py", CoreFiles[3].template);
  }

  lemma TestsInitTarget(root: Path, name: string)
    ensures Target(root, name, CoreFiles[5]) == root + ["tests", "__init__.py"]
  {
    TestsTarget(root, name, CoreFiles[5], "__init__.py");
  }

  lemma TestMainTarget(root: Path, name: string)
    ensures Target(root, name, CoreFiles[6]) == root + ["tests", "test_main.py"]
  {
    TestsTarget(root, name, CoreFiles[6], "test_main.py");
  }

  lemma CoreTargetEnds(root: Path, name: string, i: nat)
    requires i < 7
    ensures var d := Target(root, name, CoreFiles[i]);
      |d| > |root| && Ends(root, d) == CoreEnds[i]
  {
    if i == 0 {
      ReadmeTarget(root, name);
    } else if i == 1 {
      GitignoreTarget(root, name);
    } else if i == 2 {
      RequirementsTarget(root, name);
    } else if i == 3 {
      PackageInitTarget(root, name);
    } else if i == 4 {
      MainFileIsCopied(root, name);
    } else if i == 5 {
      TestsInitTarget(root, name);
    } else {
      TestMainTarget(root, name);
    }
  }

  /** Where the `i`-th entry lands: its first component below the project
      directory and its file name. */
  lemma TargetEnds(root: Path, name: string, skipSetup: bool, skipPyproject: bool, i: nat)
    requires i < |FilePlan(skipSetup, skipPyproject)|
    ensures var d := Target(root, name, FilePlan(skipSetup, skipPyproject)[i]);
      |d| > |root| && Ends(root, d) == PlanEnds(skipSetup, skipPyproject)[i]
  {
    var plan := FilePlan(skipSetup, skipPyproject);
    var ends := PlanEnds(skipSetup, skipPyproject);
    if i < 7 {
      assert plan[i] == plan[..7][i] == CoreFiles[i];
      assert ends[i] == CoreEnds[i];
      CoreTargetEnds(root, name, i);
    } else {
      OptionalTargetEnds(root, name, skipSetup, skipPyproject, i);
    }
  }

  /** The optional `setup.py` and `pyproject.toml` land at the top. */
  lemma OptionalTargetEnds(root: Path, name: string, skipSetup: bool, skipPyproject: bool, i: nat)
    requires 7 <= i < |FilePlan(skipSetup, skipPyproject)|
    ensures var d := Target(root, name, FilePlan(skipSetup, skipPyproject)[i]);
      |d| > |root| && Ends(root, d) == PlanEnds(skipSetup, skipPyproject)[i]
  {
    var plan := FilePlan(skipSetup, skipPyproject);
    if i == 7 && !skipSetup {
      assert plan[i] == SetupEntry;
      SetupTarget(root, name);
    } else {
      assert plan[i] == PyprojectEntry;
      PyprojectTarget(root, name);
    }
  }

  lemma SetupTarget(root: Path, name: string)
    ensures Target(root, name, SetupEntry) == root + ["setup.py"]
  {
    TopTarget(root, name, SetupEntry);
  }

  lemma PyprojectTarget(root: Path, name: string)
    ensures Target(root, name, PyprojectEntry) == PyprojectFile(root)
  {
    TopTarget(root, name, PyprojectEntry);
  }

  /** Different table entries are copied to different files. */
  lemma TargetsDistinct(root: Path, name: string, skipSetup: bool, skipPyproject: bool)
    ensures var plan := FilePlan(skipSetup, skipPyproject);
      forall i, j :: 0 <= i < j < |plan| ==> Target(root, name, plan[i]) != Target(root, name, plan[j])
  {
    var plan := FilePlan(skipSetup, skipPyproject);
    var ends := PlanEnds(skipSetup, skipPyproject);
    assert |ends| == |plan|;
    PlanEndsDistinct(skipSetup, skipPyproject);
    forall i, j | 0 <= i < j < |plan|
      ensures Target(root, name, plan[i]) != Target(root, name, plan[j])
    {
      TargetEnds(root, name, skipSetup, skipPyproject, i);
      TargetEnds(root, name, skipSetup, skipPyproject, j);
    }
  }

  lemma PlanEndsDistinct(skipSetup: bool, skipPyproject: bool)
    ensures var ends := PlanEnds(skipSetup, skipPyproject);
      forall i, j :: 0 <= i < j < |ends| ==> ends[i] != ends[j]
  {
  }

  /** The copies the file table asks for. */
  function PlannedCopies(settings: Settings, root: Path, name: string): (r: seq<Copy>)
    ensures forall i :: 0 <= i < |r| ==> Under(r[i].dst, root)
  {
    var plan := FilePlan(settings.skipSetup, settings.skipPyproject);
    Copies(root, name, settings.templateDir, plan)
  }

  /** `create_project_directory` then `create_subdirectories`: the project
      directory, `src/<name>` and `tests`, each with `exist_ok=True`.  A
      failure to create the project directory is reported wrapped as a
      project-directory error; the subdirectories report theirs as raised.
      Only directories are added. */
  function MakeLayoutDirs(fs: FileSystem, root: Path, name: string): (r: Partial)
    ensures r.fs.files == fs.files && fs.dirs <= r.fs.dirs
    ensures r.failure.None? ==>
      IsDir(r.fs, root) && IsDir(r.fs, PackageDir(root, name)) && IsDir(r.fs, root + ["tests"])
    ensures r.failure.Some? && r.failure.value.ProjectDirectory? ==> r.fs == fs
  {
    match MakeDirs(fs, root)
    case Err(e) => Partial(fs, Some(ProjectDirectory(e)))
    case Ok(fs1) =>
      match MakeDirs(fs1, PackageDir(root, name))
      case Err(e) => Partial(fs1, Some(e))
      case Ok(fs2) =>
        match MakeDirs(fs2, root + ["tests"])
        case Err(e) => Partial(fs2, Some(e))
        case Ok(fs3) => Partial(fs3, None)
  }

  /** The directories, then `create_basic_files`.  Nothing outside the project
      directory changes, and a completed layout holds every planned file. */
  function Layout(fs: FileSystem, settings: Settings, root: Path, name: string): (r: Partial)
    ensures fs.dirs <= r.fs.dirs
    ensures OutsideKept(fs, r.fs, root)
    ensures r.failure.None? ==>
      var copies := PlannedCopies(settings, root, name);
      forall i :: 0 <= i < |copies| ==> copies[i].dst in r.fs.files
  {
    var made := MakeLayoutDirs(fs, root, name);
    if made.failure.Some? then made
    else
      var copies := PlannedCopies(settings, root, name);
      CopyAllInside(made.fs, copies, root);
      CopyAll(made.fs, copies)
  }

  /** No two planned copies share a destination. */
  lemma PlannedCopiesDistinct(settings: Settings, root: Path, name: string)
    ensures var copies := PlannedCopies(settings, root, name);
      forall i, j :: 0 <= i < j < |copies| ==> copies[i].dst != copies[j].dst
  {
    var copies := PlannedCopies(settings, root, name);
    var plan := FilePlan(settings.skipSetup, settings.skipPyproject);
    TargetsDistinct(root, name, settings.skipSetup, settings.skipPyproject);
    forall i, j | 0 <= i < j < |copies|
      ensures copies[i].dst != copies[j].dst
    {
      assert copies[i].dst == Target(root, name, plan[i]);
      assert copies[j].dst == Target(root, name, plan[j]);
    }
  }

  /** `shutil.copyfile` copies a template's text unchanged: when no template
      lies inside the project directory, each planned destination ends up
      holding the text its template had before the run.  The destinations
      are distinct, so no copy overwrites another. */
  lemma LayoutContents(fs: FileSystem, settings: Settings, root: Path, name: string)
    requires var copies := PlannedCopies(settings, root, name);
      forall i :: 0 <= i < |copies| ==> !Under(copies[i].src, root)
    ensures var copies := PlannedCopies(settings, root, name);
      var r := Layout(fs, settings, root, name);
      r.failure.None? ==>
        forall i :: 0 <= i < |copies| ==>
          copies[i].src in fs.files && r.fs.files[copies[i].dst] == fs.files[copies[i].src]
  {
    var copies := PlannedCopies(settings, root, name);
    var made := MakeLayoutDirs(fs, root, name);
    if made.failure.None? && CopyAll(made.fs, copies).failure.None? {
      PlannedCopiesDistinct(settings, root, name);
      assert forall i, j :: 0 <= i < |copies| && 0 <= j < |copies| ==> copies[i].dst != copies[j].src by {
        forall i, j | 0 <= i < |copies| && 0 <= j < |copies|
          ensures copies[i].dst != copies[j].src
        {
          assert Under(copies[i].dst, root);
        }
      }
      CopyAllContents(made.fs, copies);
    }
  }

  /** In particular `README.md` keeps the template's text. */
  lemma LayoutKeepsReadme(fs: FileSystem, settings: Settings, root: Path, name: string)
    requires var copies := PlannedCopies(settings, root, name);
      forall i :: 0 <= i < |copies| ==> !Under(copies[i].src, root)
    requires Layout(fs, settings, root, name).failure.None?
    ensures var files := Layout(fs, settings, root, name).fs.files;
      && settings.templateDir + ["README.md"] in fs.files
      && root + ["README.md"] in files
      && files[root + ["README.md"]] == fs.files[settings.templateDir + ["README.md"]]
  {
    ReadmeCopy(settings, root, name);
    LayoutContents(fs, settings, root, name);
  }

  /** The first planned copy takes the template's `README.md` to the
      project's. */
  lemma ReadmeCopy(settings: Settings, root: Path, name: string)
    ensures var copies := PlannedCopies(settings, root, name);
      |copies| > 0 && copies[0] == Copy(settings.templateDir + ["README.md"], root + ["README.md"])
  {
    var plan := FilePlan(settings.skipSetup, settings.skipPyproject);
    assert plan[0] == plan[..7][0] == CoreFiles[0];
    ReadmeTarget(root, name);
    ComponentsSingle(CoreFiles[0].template);
  }

  /** The pins `requirements.txt` gains: each successful package the freeze
      map knows, in success order, with its frozen version. */
  function RequirementPins(successful: seq<string>, versions: Versions): (r: seq<Pin>)
    ensures forall i :: 0 <= i < |r| ==>
      r[i].name in successful && r[i].name in versions && r[i].version == versions[r[i].name]
    ensures forall p :: p in versions ==> (Pin(p, versions[p]) in r <==> p in successful)
  {
    if successful == [] then []
    else
      var p := successful[0];
      var rest := RequirementPins(successful[1..], versions);
      if p in versions then [Pin(p, versions[p])] + rest else rest
  }

  /** The pins follow success order: the pins of two lists one after the
      other are the pins of the first, then those of the second. */
  lemma {:induction false} RequirementPinsAppend(a: seq<string>, b: seq<string>, versions: Versions)
    ensures RequirementPins(a + b, versions) == RequirementPins(a, versions) + RequirementPins(b, versions)
  {
    if a == [] {
      assert a + b == b;
    } else {
      assert (a + b)[0] == a[0];
      assert (a + b)[1..] == a[1..] + b;
      RequirementPinsAppend(a[1..], b, versions);
    }
  }

  predicate DistinctNames(pins: seq<Pin>) {
    forall j, k :: 0 <= j < k < |pins| ==> pins[j].name != pins[k].name
  }

  /** Distinct successful packages give pins with distinct names. */
  lemma {:induction false} RequirementPinsDistinct(successful: seq<string>, versions: Versions)
    requires Distinct(successful)
    ensures DistinctNames(RequirementPins(successful, versions))
  {
    if successful != [] {
      var p := successful[0];
      RequirementPinsDistinct(successful[1..], versions);
      var rest := RequirementPins(successful[1..], versions);
      assert p !in successful[1..] by {
        forall k | 0 <= k < |successful| - 1
          ensures successful[1..][k] != p
        {
          assert successful[1..][k] == successful[k + 1];
        }
      }
      if p in versions {
        var pins := [Pin(p, versions[p])] + rest;
        forall j, k | 0 <= j < k < |pins|
          ensures pins[j].name != pins[k].name
        {
          assert pins[k] == rest[k - 1];
          if j == 0 {
            assert pins[0].name == p;
            assert rest[k - 1].name in successful[1..];
          } else {
            assert pins[j] == rest[j - 1];
          }
        }
      }
    }
  }

  /** The `name==version` lines appended to `requirements.txt`. */
  function RequirementLines(successful: seq<string>, versions: Versions): string {
    FreezeOutput(RequirementPins(successful, versions))
  }

  /** Read back with the same parser, the lines appended to
      `requirements.txt` give exactly the successful packages the freeze map
      knows, each with its frozen version: a package that failed to install,
      or that the freeze output does not list, is never written. */
  lemma RequirementsRoundTrip(successful: seq<string>, versions: Versions)
    requires Distinct(successful)
    requires forall p :: p in versions ==> Plain(p) && Plain(versions[p])
    ensures ParseFreeze(RequirementLines(successful, versions))
      == Ok(map p | p in versions && p in successful :: versions[p])
  {
    var pins := RequirementPins(successful, versions);
    RequirementPinsDistinct(successful, versions);
    forall j | 0 <= j < |pins|
      ensures Plain(pins[j].name) && Plain(pins[j].version)
    {
      assert pins[j].name in versions;
    }
    FreezeRoundTrip(pins);
    PinsMap(successful, versions, ParseFreeze(FreezeOutput(pins)).value);
  }

  /** A map holding exactly the pins of the successful packages is the
      restriction of the freeze map to those packages. */
  lemma PinsMap(successful: seq<string>, versions: Versions, m: Versions)
    requires var pins := RequirementPins(successful, versions);
      && m.Keys == (set j | 0 <= j < |pins| :: pins[j].name)
      && forall j :: 0 <= j < |pins| ==> m[pins[j].name] == pins[j].version
    ensures m == map p | p in versions && p in successful :: versions[p]
  {
    var pins := RequirementPins(successful, versions);
    var want := map p | p in versions && p in successful :: versions[p];
    forall p | p in m.Keys
      ensures p in want.Keys
    {
      var j :| 0 <= j < |pins| && pins[j].name == p;
    }
    forall p | p in want.Keys
      ensures p in m.Keys && m[p] == want[p]
    {
      assert Pin(p, versions[p]) in pins;
      var j :| 0 <= j < |pins| && pins[j] == Pin(p, versions[p]);
    }
  }

  function RequirementsFile(root: Path): Path { root + ["requirements.txt"] }

  function PyprojectFile(root: Path): Path { root + ["pyproject.toml"] }

  /** The appends of the update loop, in its order; `pyproject.toml` is left
      alone when it is skipped.  A file is opened only when its list of lines
      is non-empty, and each of the three lists is empty exactly when no
      package installed, so then nothing is opened at all. */
  function Updates(root: Path, name: string, skipPyproject: bool,
                   successful: seq<string>, versions: Versions): seq<Write>
  {
    if successful == [] then []
    else
      [Write(RequirementsFile(root), RequirementLines(successful, versions))]
      + (if skipPyproject then [] else [Write(PyprojectFile(root), Concat(successful))])
      + [Write(MainFile(root, name), ImportLines(successful))]
  }

  /** Only appends happened: directories are the same, no file disappeared,
      and every file's old contents are a prefix of its new contents. */
  predicate AppendOnly(fs: FileSystem, fs': FileSystem) {
    && fs'.dirs == fs.dirs
    && forall q :: q in fs.files ==> q in fs'.files && fs.files[q] <= fs'.files[q]
  }

  /** The three files the update loop may touch are different files. */
  lemma UpdatedFilesDiffer(root: Path, name: string)
    ensures RequirementsFile(root) != PyprojectFile(root)
    ensures RequirementsFile(root) != MainFile(root, name)
    ensures PyprojectFile(root) != MainFile(root, name)
  {
    assert RequirementsFile(root)[|root|] == "requirements.txt";
    assert PyprojectFile(root)[|root|] == "pyproject.toml";
    assert MainFile(root, name)[|root|] == "src";
  }

  /** The update list: empty when nothing installed; otherwise
      `requirements.txt` first, `main.py` last, and `pyproject.toml` between
      them exactly when it is not skipped. */
  lemma UpdatesShape(root: Path, name: string, skipPyproject: bool,
                     successful: seq<string>, versions: Versions)
    ensures successful == [] ==> Updates(root, name, skipPyproject, successful, versions) == []
    ensures successful != [] ==> var ws := Updates(root, name, skipPyproject, successful, versions);
      && |ws| == (if skipPyproject then 2 else 3)
      && ws[0].path == RequirementsFile(root)
      && ws[|ws| - 1].path == MainFile(root, name)
      && (!skipPyproject ==> ws[1].path == PyprojectFile(root))
      && WritePaths(ws) == {RequirementsFile(root), MainFile(root, name)}
           + (if skipPyproject then {} else {PyprojectFile(root)})
      && DistinctPaths(ws)
  {
    var ws := Updates(root, name, skipPyproject, successful, versions);
    UpdatesPaths(root, name, skipPyproject, successful, versions);
    if successful != [] {
      UpdatedFilesDiffer(root, name);
      assert forall i :: 0 <= i < |ws| ==> ws[i] in ws;
    }
  }

  /** The files the update loop opens: none when nothing installed, and
      otherwise `requirements.txt`, `main.py` and, unless skipped,
      `pyproject.toml`. */
  lemma UpdatesPaths(root: Path, name: string, skipPyproject: bool,
                     successful: seq<string>, versions: Versions)
    ensures WritePaths(Updates(root, name, skipPyproject, successful, versions))
      == if successful == [] then {}
         else {RequirementsFile(root), MainFile(root, name)}
              + (if skipPyproject then {} else {PyprojectFile(root)})
  {
    var ws := Updates(root, name, skipPyproject, successful, versions);
    if successful == [] {
      assert ws == [];
    } else {
      WritePathsStep(ws);
      WritePathsStep(ws[1..]);
      if skipPyproject {
        assert ws[1..][1..] == [];
      } else {
        WritePathsStep(ws[1..][1..]);
        assert ws[1..][1..][1..] == [];
      }
    }
  }

  /** The update loop opens none but the three update files, and never
      `pyproject.toml` when it is skipped. */
  lemma UpdatesWithin(root: Path, name: string, skipPyproject: bool,
                      successful: seq<string>, versions: Versions)
    ensures forall q :: q in WritePaths(Updates(root, name, skipPyproject, successful, versions)) ==>
      q == RequirementsFile(root) || q == PyprojectFile(root) || q == MainFile(root, name)
    ensures skipPyproject ==>
      PyprojectFile(root) !in WritePaths(Updates(root, name, skipPyproject, successful, versions))
  {
    UpdatesPaths(root, name, skipPyproject, successful, versions);
    UpdatedFilesDiffer(root, name);
  }

  /** Every file the update loop opens can be opened exactly when, if
      something installed, the three files (two when `pyproject.toml` is
      skipped) can be. */
  lemma UpdatesWritable(fs: FileSystem, root: Path, name: string, skipPyproject: bool,
                        successful: seq<string>, versions: Versions)
    ensures (forall i :: 0 <= i < |Updates(root, name, skipPyproject, successful, versions)| ==>
               Writable(fs, Updates(root, name, skipPyproject, successful, versions)[i].path))
      <==> (successful != [] ==>
              && Writable(fs, RequirementsFile(root))
              && (skipPyproject || Writable(fs, PyprojectFile(root)))
              && Writable(fs, MainFile(root, name)))
  {
    var ws := Updates(root, name, skipPyproject, successful, versions);
    if successful != [] {
      var n := |ws|;
      assert n == (if skipPyproject then 2 else 3);
      assert ws[0].path == RequirementsFile(root);
      assert ws[n - 1].path == MainFile(root, name);
      if !skipPyproject {
        assert ws[1].path == PyprojectFile(root);
      }
    }
  }

  /** `write_successful_packages_to_files`: read the freeze output, then append
      to `requirements.txt`, to `pyproject.toml` unless it is skipped, and to
      `main.py`.  Every change is an append, only these three files change,
      and the first error stops the rest. */
  function Reconcile(fs: FileSystem, root: Path, name: string, skipPyproject: bool,
                     successful: seq<string>, freeze: string): (r: Partial)
    ensures AppendOnly(fs, r.fs)
    ensures forall q :: q in r.fs.files && q !in fs.files ==>
      q == RequirementsFile(root) || q == PyprojectFile(root) || q == MainFile(root, name)
    ensures forall q :: (q in fs.files && q != RequirementsFile(root) && q != PyprojectFile(root)
      && q != MainFile(root, name)) ==> r.fs.files[q] == fs.files[q]
  {
    match ParseFreeze(freeze)
    case Err(e) => Partial(fs, Some(e))
    case Ok(versions) =>
      var ws := Updates(root, name, skipPyproject, successful, versions);
      UpdatesWithin(root, name, skipPyproject, successful, versions);
      AppendAll(fs, ws)
  }

  /** The update completes exactly when the freeze output reads and, if some
      package installed, each file it appends to can be opened. */
  lemma ReconcileCompletes(fs: FileSystem, root: Path, name: string, skipPyproject: bool,
                           successful: seq<string>, freeze: string)
    ensures Reconcile(fs, root, name, skipPyproject, successful, freeze).failure.None? <==>
      && ParseFreeze(freeze).Ok?
      && (successful != [] ==>
            && Writable(fs, RequirementsFile(root))
            && (skipPyproject || Writable(fs, PyprojectFile(root)))
            && Writable(fs, MainFile(root, name)))
  {
    if ParseFreeze(freeze).Ok? {
      var versions := ParseFreeze(freeze).value;
      AppendAllCompletes(fs, Updates(root, name, skipPyproject, successful, versions));
      UpdatesWritable(fs, root, name, skipPyproject, successful, versions);
    }
  }

  /** With `pyproject.toml` skipped, the update loop leaves it as it was,
      present or not. */
  lemma ReconcileLeavesPyproject(fs: FileSystem, root: Path, name: string,
                                 successful: seq<string>, freeze: string)
    ensures var files := Reconcile(fs, root, name, true, successful, freeze).fs.files;
      && (PyprojectFile(root) in files <==> PyprojectFile(root) in fs.files)
      && (PyprojectFile(root) in fs.files ==> files[PyprojectFile(root)] == fs.files[PyprojectFile(root)])
  {
    if ParseFreeze(freeze).Ok? {
      UpdatesWithin(root, name, true, successful, ParseFreeze(freeze).value);
    }
  }

  /** What the update leaves in the three files when the freeze output reads
      and each file can be opened: nothing changes when no package installed,
      and otherwise each file gains its lines at the end. */
  lemma ReconcileContents(fs: FileSystem, root: Path, name: string, skipPyproject: bool,
                          successful: seq<string>, freeze: string)
    requires ParseFreeze(freeze).Ok?
    requires successful != [] ==> Writable(fs, RequirementsFile(root)) && Writable(fs, MainFile(root, name))
    requires successful != [] && !skipPyproject ==> Writable(fs, PyprojectFile(root))
    ensures successful == [] ==> Reconcile(fs, root, name, skipPyproject, successful, freeze) == Partial(fs, None)
    ensures successful != [] ==>
      var files := Reconcile(fs, root, name, skipPyproject, successful, freeze).fs.files;
      var versions := ParseFreeze(freeze).value;
      && RequirementsFile(root) in files && MainFile(root, name) in files
      && files[RequirementsFile(root)]
         == Contents(fs, RequirementsFile(root)) + RequirementLines(successful, versions)
      && files[MainFile(root, name)] == Contents(fs, MainFile(root, name)) + ImportLines(successful)
      && (!skipPyproject ==>
            PyprojectFile(root) in files
            && files[PyprojectFile(root)] == Contents(fs, PyprojectFile(root)) + Concat(successful))
  {
    ReconcileCompletes(fs, root, name, skipPyproject, successful, freeze);
    var versions := ParseFreeze(freeze).value;
    var ws := Updates(root, name, skipPyproject, successful, versions);
    UpdatesShape(root, name, skipPyproject, successful, versions);
    if successful != [] {
      AppendAllContents(fs, ws);
    }
  }

  /** `create_project_structure` run from the validated configuration: lay the
      project out, create the virtual environment, install, and reconcile
      when something installed.  The first error ends the run with the
      filesystem as it then stands. */
  function Scaffold(fs: FileSystem, settings: Settings, request: Request, world: World): (r: Run)
    ensures Upper(request.name) in settings.reserved ==> r == Run(fs, Failed(ReservedName(request.name)))
    ensures OutsideKept(fs, r.fs, ProjectRoot(request.projectPath, request.name))
    ensures r.outcome.Created? ==> world.venvCreated && Upper(request.name) !in settings.reserved
    ensures r.outcome.Created? ==> r.outcome.attempts == InstallPackages(request.packages, world.installs)
    ensures r.outcome.Created? ==>
      var a := r.outcome.attempts;
      && Distinct(a.successful) && Distinct(a.failed)
      && (forall x :: x in a.successful <==> x in request.packages && world.installs(x))
      && (forall x :: x in a.failed <==> x in request.packages && !world.installs(x))
    ensures r.outcome.Created? ==>
      var root := ProjectRoot(request.projectPath, request.name);
      var copies := PlannedCopies(settings, root, request.name);
      && IsDir(r.fs, VenvDir(root, request.name))
      && forall i :: 0 <= i < |copies| ==> copies[i].dst in r.fs.files
  {
    match ValidateName(request.name, settings.reserved)
    case Err(e) => Run(fs, Failed(e))
    case Ok(name) =>
      var root := ProjectRoot(request.projectPath, name);
      var laid := Layout(fs, settings, root, name);
      if laid.failure.Some? then Run(laid.fs, Failed(laid.failure.value))
      else
        match CreateVenv(laid.fs, root, name, world.venvCreated)
        case Err(e) => Run(laid.fs, Failed(e))
        case Ok(fs5) =>
          var attempts := InstallPackages(request.packages, world.installs);
          if attempts.successful == [] then Run(fs5, Created(attempts))
          else
            var rec := Reconcile(fs5, root, name, settings.skipPyproject, attempts.successful, world.freeze);
            ReconcileInside(fs5, root, name, settings.skipPyproject, attempts.successful, world.freeze);
            if rec.failure.Some? then Run(rec.fs, Failed(rec.failure.value))
            else Run(rec.fs, Created(attempts))
  }

  /** `t` is the tail of `s`. */
  predicate EndsWith(s: string, t: string) {
    |t| <= |s| && s[|s| - |t|..] == t
  }

  /** An update that completes after something installed leaves the pins at
      the end of `requirements.txt`, the imports at the end of `main.py` and,
      unless skipped, the names at the end of `pyproject.toml`. */
  lemma ReconcileEnds(fs: FileSystem, root: Path, name: string, skipPyproject: bool,
                      successful: seq<string>, freeze: string)
    ensures var files := Reconcile(fs, root, name, skipPyproject, successful, freeze).fs.files;
      Reconcile(fs, root, name, skipPyproject, successful, freeze).failure.None? && successful != [] ==>
        && ParseFreeze(freeze).Ok?
        && RequirementsFile(root) in files && MainFile(root, name) in files
        && EndsWith(files[RequirementsFile(root)], RequirementLines(successful, ParseFreeze(freeze).value))
        && EndsWith(files[MainFile(root, name)], ImportLines(successful))
        && (!skipPyproject ==>
              PyprojectFile(root) in files && EndsWith(files[PyprojectFile(root)], Concat(successful)))
  {
    ReconcileCompletes(fs, root, name, skipPyproject, successful, freeze);
    if Reconcile(fs, root, name, skipPyproject, successful, freeze).failure.None? && successful != [] {
      ReconcileContents(fs, root, name, skipPyproject, successful, freeze);
    }
  }

  /** A run that creates the project and installs something ends with the
      pins at the end of `requirements.txt`, the imports at the end of
      `main.py` and, unless skipped, the names at the end of
      `pyproject.toml`; the freeze output it used was readable. */
  lemma ScaffoldRecords(fs: FileSystem, settings: Settings, request: Request, world: World)
    ensures var r := Scaffold(fs, settings, request, world);
      var a := InstallPackages(request.packages, world.installs);
      var root := ProjectRoot(request.projectPath, request.name);
      r.outcome.Created? && a.successful != [] ==>
        && ParseFreeze(world.freeze).Ok?
        && RequirementsFile(root) in r.fs.files && MainFile(root, request.name) in r.fs.files
        && EndsWith(r.fs.files[RequirementsFile(root)],
                    RequirementLines(a.successful, ParseFreeze(world.freeze).value))
        && EndsWith(r.fs.files[MainFile(root, request.name)], ImportLines(a.successful))
        && (!settings.skipPyproject ==>
              PyprojectFile(root) in r.fs.files
              && EndsWith(r.fs.files[PyprojectFile(root)], Concat(a.successful)))
  {
    var r := Scaffold(fs, settings, request, world);
    var a := InstallPackages(request.packages, world.installs);
    if r.outcome.Created? && a.successful != [] {
      var name := request.name;
      var root := ProjectRoot(request.projectPath, name);
      var laid := Layout(fs, settings, root, name);
      var fs5 := CreateVenv(laid.fs, root, name, world.venvCreated).value;
      var rec := Reconcile(fs5, root, name, settings.skipPyproject, a.successful, world.freeze);
      assert r == Run(rec.fs, Created(a));
      ReconcileEnds(fs5, root, name, settings.skipPyproject, a.successful, world.freeze);
    }
  }

  /** When no requested package installs, nothing is updated, so what
      `pip freeze` prints does not matter, even output the parser rejects. */
  lemma NoSuccessIgnoresFreeze(fs: FileSystem, settings: Settings, request: Request,
                               created: bool, installs: string -> bool, freeze1: string, freeze2: string)
    requires forall x :: x in request.packages ==> !installs(x)
    ensures Scaffold(fs, settings, request, World(created, installs, freeze1))
      == Scaffold(fs, settings, request, World(created, installs, freeze2))
  {
    var succeeded := InstallPackages(request.packages, installs).successful;
    assert forall x :: x !in succeeded;
    assert multiset(succeeded) == multiset{};
    assert |succeeded| == |multiset(succeeded)| == 0;
  }

  /** Reconciliation writes only inside the project directory. */
  lemma ReconcileInside(fs: FileSystem, root: Path, name: string, skipPyproject: bool,
                        successful: seq<string>, freeze: string)
    ensures OutsideKept(fs, Reconcile(fs, root, name, skipPyproject, successful, freeze).fs, root)
  {
    assert Under(RequirementsFile(root), root) && Under(PyprojectFile(root), root);
  }
}
