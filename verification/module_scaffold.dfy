/** The fixed-template scaffolder (the `module` package): the same stages as
    the configurable one, but the file contents are built in, the reserved
    names are the Windows device names, `pydantic` and `pytest` are always
    installed first, and the packages that installed are recorded whether or
    not any did. */
module ModuleScaffold {
  import opened Text
  import opened Paths
  import opened Errors
  import opened Files
  import opened Names
  import opened Install
  import opened Stages

  /** `README.md`: a heading with the capitalised project name. */
  function Readme(name: string): string {
    "# " + Capitalize(name) + "\n"
  }

  /** `.gitignore`: byte code, the environment file and the project's own
      virtual environment directory. */
  function GitIgnore(name: string): string {
    "__pycache__/\n*.pyc\n.env\n" + name + "_venv/\n"
  }

  /** `requirements.txt` as first written: the two base packages. */
  const InitialRequirements: string := "pydantic\npytest\n"

  /** `setup.py`, with the doubled braces of the format string written out
      as single ones. */
  function SetupPy(name: string): string {
    "from setuptools import setup, find_packages\n\nsetup(\n    name=\"" + name
      + "\",\n    version=\"0.1.0\",\n    packages=find_packages(where=\"src\"),\n"
      + "    package_dir={\"\": \"src\"},\n    install_requires=[],\n    entry_points={\n"
      + "        \"console_scripts\": [\n            \"" + name + " = src.main:main\",\n"
      + "        ],\n    },\n)\n"
  }

  const SrcInit: string := "# src/__init__.py\n# This file is intentionally left blank.\n"

  const MainTemplate: string :=
    "import pydantic\n\ndef main():\n    print(\"Hello, World!\")\n\nif __name__ == \"__main__\":\n    main()\n"

  const TestsInit: string := "# tests/__init__.py\n# This file is intentionally left blank.\n"

  const TestMain: string := "import pytest\n\ndef test_example():\n    assert True\n"

  function ReadmeFile(root: Path): Path { root + ["README.md"] }
  function GitIgnoreFile(root: Path): Path { root + [".gitignore"] }
  function RequirementsFile(root: Path): Path { root + ["requirements.txt"] }
  function SetupFile(root: Path): Path { root + ["setup.py"] }
  function MainFile(root: Path): Path { root + ["src", "main.py"] }
  function SrcInitFile(root: Path): Path { root + ["src", "__init__.py"] }
  function TestsInitFile(root: Path): Path { root + ["tests", "__init__.py"] }
  function TestMainFile(root: Path): Path { root + ["tests", "test_main.py"] }

  /** The texts of the eight basic files. */
  datatype Texts = Texts(
    readme: string, gitignore: string, requirements: string, setup: string,
    srcInit: string, main: string, testsInit: string, testMain: string)

  /** The built-in texts for a project called `name`. */
  function BuiltIn(name: string): Texts {
    Texts(Readme(name), GitIgnore(name), InitialRequirements, SetupPy(name),
          SrcInit, MainTemplate, TestsInit, TestMain)
  }

  /** The eight files `create_basic_files` writes, in its order.  Every
      relative name is joined to the project directory component by
      component. */
  function BasicFiles(root: Path, t: Texts): (r: seq<Write>)
    ensures |r| == 8
    ensures forall i :: 0 <= i < |r| ==> Under(r[i].path, root) && |r[i].path| > |root|
  {
    [ Write(ReadmeFile(root), t.readme),
      Write(GitIgnoreFile(root), t.gitignore),
      Write(RequirementsFile(root), t.requirements),
      Write(SetupFile(root), t.setup),
      Write(SrcInitFile(root), t.srcInit),
      Write(MainFile(root), t.main),
      Write(TestsInitFile(root), t.testsInit),
      Write(TestMainFile(root), t.testMain) ]
  }

  /** `create_project_directory` then `create_subdirectories`: the project
      directory, `src` and `tests`.  A failure to create the project
      directory is reported wrapped; the others as raised.  Only directories
      are added. */
  function MakeLayoutDirs(fs: FileSystem, root: Path): (r: Partial)
    ensures r.fs.files == fs.files && fs.dirs <= r.fs.dirs
    ensures r.failure.None? ==> IsDir(r.fs, root + ["src"]) && IsDir(r.fs, root + ["tests"])
  {
    match MakeDirs(fs, root)
    case Err(e) => Partial(fs, Some(ProjectDirectory(e)))
    case Ok(fs1) =>
      match MakeDirs(fs1, root + ["src"])
      case Err(e) => Partial(fs1, Some(e))
      case Ok(fs2) =>
        match MakeDirs(fs2, root + ["tests"])
        case Err(e) => Partial(fs2, Some(e))
        case Ok(fs3) => Partial(fs3, None)
  }

  /** The directories, then `create_basic_files`.  Nothing outside the
      project directory changes. */
  function Layout(fs: FileSystem, root: Path, name: string): (r: Partial)
    ensures fs.dirs <= r.fs.dirs
    ensures OutsideKept(fs, r.fs, root)
  {
    var made := MakeLayoutDirs(fs, root);
    if made.failure.Some? then made
    else
      var ws := BasicFiles(root, BuiltIn(name));
      WriteAllInside(made.fs, ws, root);
      WriteAll(made.fs, ws)
  }

  /** A completed layout holds the built-in texts: the two base packages in
      `requirements.txt`, the template `main.py`, a `.gitignore`, `README.md`
      and `setup.py` made from the project name, and the fixed texts of the
      two package markers and the example test. */
  lemma LayoutContents(fs: FileSystem, root: Path, name: string)
    requires Layout(fs, root, name).failure.None?
    ensures var files := Layout(fs, root, name).fs.files;
      && RequirementsFile(root) in files && files[RequirementsFile(root)] == InitialRequirements
      && MainFile(root) in files && files[MainFile(root)] == MainTemplate
      && GitIgnoreFile(root) in files && files[GitIgnoreFile(root)] == GitIgnore(name)
      && ReadmeFile(root) in files && files[ReadmeFile(root)] == Readme(name)
      && SetupFile(root) in files && files[SetupFile(root)] == SetupPy(name)
      && SrcInitFile(root) in files && files[SrcInitFile(root)] == SrcInit
      && TestsInitFile(root) in files && files[TestsInitFile(root)] == TestsInit
      && TestMainFile(root) in files && files[TestMainFile(root)] == TestMain
  {
    var made := MakeLayoutDirs(fs, root);
    var ws := BasicFiles(root, BuiltIn(name));
    assert Layout(fs, root, name) == WriteAll(made.fs, ws);
    WriteAllCompletes(made.fs, ws);
    BasicFilesWritten(made.fs, root, BuiltIn(name));
  }

  /** When each of the eight paths can be opened for writing, writing the
      basic files leaves each named file holding its own text, whatever the
      texts are. */
  lemma BasicFilesWritten(fs: FileSystem, root: Path, t: Texts)
    requires forall i :: 0 <= i < 8 ==> Writable(fs, BasicFiles(root, t)[i].path)
    ensures var files := WriteAll(fs, BasicFiles(root, t)).fs.files;
      && ReadmeFile(root) in files && files[ReadmeFile(root)] == t.readme
      && GitIgnoreFile(root) in files && files[GitIgnoreFile(root)] == t.gitignore
      && RequirementsFile(root) in files && files[RequirementsFile(root)] == t.requirements
      && SetupFile(root) in files && files[SetupFile(root)] == t.setup
      && MainFile(root) in files && files[MainFile(root)] == t.main
      && SrcInitFile(root) in files && files[SrcInitFile(root)] == t.srcInit
      && TestsInitFile(root) in files && files[TestsInitFile(root)] == t.testsInit
      && TestMainFile(root) in files && files[TestMainFile(root)] == t.testMain
  {
    var ws := BasicFiles(root, t);
    WriteAllCompletes(fs, ws);
    BasicPathsDistinct(root, t);
    WriteAllDistinct(fs, ws);
    assert ws[0].path == ReadmeFile(root) && ws[1].path == GitIgnoreFile(root);
    assert ws[2].path == RequirementsFile(root) && ws[3].path == SetupFile(root);
    assert ws[4].path == SrcInitFile(root) && ws[5].path == MainFile(root);
    assert ws[6].path == TestsInitFile(root) && ws[7].path == TestMainFile(root);
  }

  /** The eight files are different files: their names differ in length at
      the first or the second component below the project directory. */
  lemma BasicPathsDistinct(root: Path, t: Texts)
    ensures DistinctPaths(BasicFiles(root, t))
  {
    var ws := BasicFiles(root, t);
    var n := |root|;
    assert |ws[0].path[n]| == 9 && |ws[1].path[n]| == 10 && |ws[2].path[n]| == 16 && |ws[3].path[n]| == 8;
    assert |ws[4].path[n]| == 3 && |ws[5].path[n]| == 3 && |ws[6].path[n]| == 5 && |ws[7].path[n]| == 5;
    assert |ws[4].path[n + 1]| == 11 && |ws[5].path[n + 1]| == 7;
    assert |ws[6].path[n + 1]| == 11 && |ws[7].path[n + 1]| == 12;
  }

  /** The `.gitignore` lists the virtual environment directory the run
      creates, as its last line. */
  lemma GitIgnoreListsVenv(root: Path, name: string)
    requires name != "" && NoLineBreak(name) && '/' !in name
    ensures SplitLines(GitIgnore(name)) == ["__pycache__/", "*.pyc", ".env", name + "_venv/"]
    ensures VenvDir(root, name) == root + [name + "_venv"]
  {
    GitIgnoreHead();
    var venv := name + "_venv/";
    NoLineBreakJoin(name, "_venv/");
    var ls := ["__pycache__/", "*.pyc", ".env", venv];
    calc {
      Lines(ls);
      "__pycache__/" + "\n" + Lines(ls[1..]);
      "__pycache__/" + "\n" + ("*.pyc" + "\n" + Lines(ls[2..]));
      "__pycache__/" + "\n" + ("*.pyc" + "\n" + (".env" + "\n" + Lines(ls[3..])));
      "__pycache__/" + "\n" + ("*.pyc" + "\n" + (".env" + "\n" + (venv + "\n" + Lines([]))));
      "__pycache__/\n*.pyc\n.env\n" + name + "_venv/\n";
    }
    SplitLinesOfLines(ls);
    assert '/' !in name + "_venv";
    ComponentsSingle(name + "_venv");
  }

  lemma GitIgnoreHead()
    ensures NoLineBreak("__pycache__/") && NoLineBreak("*.pyc") && NoLineBreak(".env")
    ensures NoLineBreak("_venv/")
  {
  }

  /** The requested packages that installed, in request order and with their
      repeats: each requested package is kept, once per time it was
      requested, when it is among the successful ones. */
  function Chosen(additional: seq<string>, successful: seq<string>): (r: seq<string>)
    ensures forall i :: 0 <= i < |r| ==> r[i] in additional && r[i] in successful
    ensures forall x :: multiset(r)[x] == (if x in successful then multiset(additional)[x] else 0)
  {
    if additional == [] then []
    else
      var rest := Chosen(additional[1..], successful);
      assert additional == [additional[0]] + additional[1..];
      if additional[0] in successful then [additional[0]] + rest else rest
  }

  /** `Chosen` keeps request order: the packages chosen from two requests
      one after the other are those chosen from the first, then those chosen
      from the second. */
  lemma {:induction false} ChosenAppend(a: seq<string>, b: seq<string>, successful: seq<string>)
    ensures Chosen(a + b, successful) == Chosen(a, successful) + Chosen(b, successful)
  {
    if a == [] {
      assert a + b == b;
    } else {
      assert (a + b)[0] == a[0];
      assert (a + b)[1..] == a[1..] + b;
      ChosenAppend(a[1..], b, successful);
    }
  }

  /** A requested package is recorded exactly when it installed; a base
      package the user did not ask for is never recorded again. */
  lemma ChosenAreInstalled(additional: seq<string>, installs: string -> bool, x: string)
    ensures x in Chosen(additional, InstallAll(additional, installs).successful)
      <==> x in additional && installs(x)
  {
    var a := InstallAll(additional, installs);
    var r := Chosen(additional, a.successful);
    assert x in r <==> multiset(r)[x] > 0;
    assert x in additional <==> multiset(additional)[x] > 0;
    PartitionMembers(BasePackages + additional, installs, x);
    PartitionAppend(BasePackages, additional, installs);
  }

  /** The end of `install_packages`: append each chosen package to
      `requirements.txt`, then rewrite `main.py` as one import line per chosen
      package followed by what it held.  It runs whether or not anything
      installed.  Only those two files change, `main.py` keeps its old text as
      a suffix, and a missing `main.py` is an error. */
  function Record(fs: FileSystem, root: Path, chosen: seq<string>): (r: Partial)
    ensures r.fs.dirs == fs.dirs
    ensures forall q :: q in r.fs.files && q !in fs.files ==> q == RequirementsFile(root)
    ensures forall q :: q in fs.files && q != RequirementsFile(root) && q != MainFile(root) ==>
      q in r.fs.files && r.fs.files[q] == fs.files[q]
    ensures r.failure.None? <==>
      Writable(fs, RequirementsFile(root)) && MainFile(root) in fs.files && Writable(fs, MainFile(root))
    ensures r.failure.None? ==>
      && RequirementsFile(root) in r.fs.files && MainFile(root) in r.fs.files
      && r.fs.files[RequirementsFile(root)] == Contents(fs, RequirementsFile(root)) + Lines(chosen)
      && r.fs.files[MainFile(root)] == ImportLines(chosen) + fs.files[MainFile(root)]
    ensures Writable(fs, RequirementsFile(root)) && MainFile(root) !in fs.files ==>
      r.failure == Some(ReadFile(fs, MainFile(root)).error)
    ensures OutsideKept(fs, r.fs, root)
  {
    assert RequirementsFile(root)[|root|] != MainFile(root)[|root|];
    match AppendFile(fs, RequirementsFile(root), Lines(chosen))
    case Err(e) => Partial(fs, Some(e))
    case Ok(fs1) =>
      match ReadFile(fs1, MainFile(root))
      case Err(e) => Partial(fs1, Some(e))
      case Ok(original) =>
        match WriteFile(fs1, MainFile(root), ImportLines(chosen) + original)
        case Err(e) => Partial(fs1, Some(e))
        case Ok(fs2) => Partial(fs2, None)
  }

  /** With nothing to record, an existing project's two files come out as
      they went in. */
  lemma RecordNothing(fs: FileSystem, root: Path)
    requires RequirementsFile(root) in fs.files && Writable(fs, RequirementsFile(root))
    requires MainFile(root) in fs.files && Writable(fs, MainFile(root))
    ensures Record(fs, root, []) == Partial(fs, None)
  {
    var reqs, main := RequirementsFile(root), MainFile(root);
    assert Lines([]) == "" && ImportLines([]) == "";
    assert fs.files[reqs] + "" == fs.files[reqs] && "" + fs.files[main] == fs.files[main];
    assert AppendFile(fs, reqs, "") == Ok(fs) by {
      assert fs.files[reqs := fs.files[reqs]] == fs.files;
    }
    assert ReadFile(fs, main) == Ok(fs.files[main]);
    assert WriteFile(fs, main, fs.files[main]) == Ok(fs) by {
      assert fs.files[main := fs.files[main]] == fs.files;
    }
  }

  /** What the user asked for. */
  datatype Request = Request(projectPath: Path, name: string, additional: seq<string>)

  /** What the outside world does: whether `python -m venv` succeeds and which
      packages `pip install` manages to install. */
  datatype World = World(venvCreated: bool, installs: string -> bool)

  function ProjectRoot(request: Request): (r: Path)
    ensures Under(r, request.projectPath)
  {
    request.projectPath + Components(request.name)
  }

  /** A plain project name, non-empty and without a slash, names one directory
      directly inside the chosen location. */
  lemma ProjectRootOfPlainName(request: Request)
    requires request.name != "" && '/' !in request.name
    ensures ProjectRoot(request) == request.projectPath + [request.name]
    ensures Dirname(ProjectRoot(request)) == request.projectPath
  {
    ComponentsSingle(request.name);
    DirnameOfChild(request.projectPath, request.name);
  }

  /** `create_project_structure`: validate the name against the device names,
      lay the project out, create the virtual environment, install the base
      and requested packages, and record the requested ones that installed.
      The first error ends the run with the filesystem as it then stands. */
  function Scaffold(fs: FileSystem, request: Request, world: World): (r: Run)
    ensures Upper(request.name) in DeviceNames ==> r == Run(fs, Failed(ReservedName(request.name)))
    ensures OutsideKept(fs, r.fs, ProjectRoot(request))
    ensures r.outcome.Created? ==>
      && world.venvCreated
      && r.outcome.attempts == InstallAll(request.additional, world.installs)
      && IsDir(r.fs, VenvDir(ProjectRoot(request), request.name))
  {
    match ValidateName(request.name, DeviceNames)
    case Err(e) => Run(fs, Failed(e))
    case Ok(name) =>
      var root := ProjectRoot(request);
      var laid := Layout(fs, root, name);
      if laid.failure.Some? then Run(laid.fs, Failed(laid.failure.value))
      else
        match CreateVenv(laid.fs, root, name, world.venvCreated)
        case Err(e) => Run(laid.fs, Failed(e))
        case Ok(fs5) =>
          var attempts := InstallAll(request.additional, world.installs);
          var recorded := Record(fs5, root, Chosen(request.additional, attempts.successful));
          if recorded.failure.Some? then Run(recorded.fs, Failed(recorded.failure.value))
          else Run(recorded.fs, Created(attempts))
  }

  /** A completed run leaves `requirements.txt` holding the base packages and
      then each requested package that installed, and `main.py` holding an
      import for each of those before the template text. */
  lemma ScaffoldFiles(fs: FileSystem, request: Request, world: World)
    requires Scaffold(fs, request, world).outcome.Created?
    ensures var root := ProjectRoot(request);
      var files := Scaffold(fs, request, world).fs.files;
      var chosen := Chosen(request.additional, InstallAll(request.additional, world.installs).successful);
      && RequirementsFile(root) in files && MainFile(root) in files
      && files[RequirementsFile(root)] == InitialRequirements + Lines(chosen)
      && files[MainFile(root)] == ImportLines(chosen) + MainTemplate
  {
    var root := ProjectRoot(request);
    var laid := Layout(fs, root, request.name);
    LayoutContents(fs, root, request.name);
    var fs5 := CreateVenv(laid.fs, root, request.name, world.venvCreated).value;
    var attempts := InstallAll(request.additional, world.installs);
    var chosen := Chosen(request.additional, attempts.successful);
    var recorded := Record(fs5, root, chosen);
    assert Scaffold(fs, request, world) == Run(recorded.fs, Created(attempts));
    assert fs5.files == laid.fs.files;
  }
}
