# dev_template in Dafny

`dev_template` is a command-line tool that creates a new Python project. It
asks for a project name, a location and a list of packages. Then it:

- creates the project directory and its `src` and `tests` subdirectories;
- fills in the basic files;
- creates a virtual environment called `<name>_venv`;
- runs `pip install` for each package;
- records the packages that installed in the project's files.

The repository holds two variants of the tool, and this project models the
decision logic of both:

- **The configurable scaffolder** (`src/dev_template/dev_template.py`)
  - reads its reserved names, default packages and two skip flags from a
    configuration file;
  - copies template files into the project according to a file table in
    which `{project_name}` stands for the name;
  - installs each distinct requested package once;
  - reads `pip freeze` output into a name-to-version map;
  - if at least one package installed, appends:
    - `name==version` pins to `requirements.txt`;
    - the bare names to `pyproject.toml`, unless it is skipped;
    - `import name` lines to the package's `main.py`.
- **The fixed-template scaffolder** (`src/module/dev_template.py`)
  - reserves the 22 Windows device names;
  - writes eight built-in files;
  - always tries `pydantic` and `pytest` first, then the requested packages
    in order, repeats included;
  - appends each requested package that installed to `requirements.txt`;
  - rewrites `main.py` with the imports placed *before* its old text.

## How the model is built

The model is purely functional.

- **Filesystem.** A set of directories plus a map from file paths to
  contents (`Files.FileSystem`). Each path is a sequence of components.
  Python's `os.makedirs(..., exist_ok=True)`, `open(..., "w"/"a")`,
  `open().read()` and `shutil.copyfile` are functions that return either a
  new filesystem or the error the Python call would raise.
- **Runs stop where they fail.** The tool never rolls back. Every stage
  therefore returns the filesystem as it stands when it stops, together with
  the error (`Stages.Partial`). A whole run ends in `Created(attempts)` or
  `Failed(error)`, paired with that filesystem.
- **Outside world as parameters.** What lies outside the program is passed
  in (`World`):
  - whether `python -m venv` succeeds;
  - an oracle `installs: string -> bool` telling whether `pip install p`
    succeeds;
  - the text `pip freeze` prints.
- **String operations.** The Python string operations the logic relies on
  are defined in `Text`: `strip`, `upper`, `capitalize`, `split`,
  `sep.join`, `splitlines` and placeholder replacement.

Modules:

| file | module | covers |
|---|---|---|
| text.dfy | `Text` | the string operations and their algebra: split/join round trips, splitlines |
| files.dfy | `Paths`, `Errors`, `Files` | component paths, the error conditions, the filesystem operations |
| names.dfy | `Names` | reserved-name sets, name validation, the comma-separated package list |
| install.dfy | `Install` | deduplication and the install loops of both variants |
| freeze.dfy | `Freeze` | the `pip freeze` reader |
| stages.dfy | `Stages` | the copy, write and append loops, import lines, the virtual environment |
| scaffold.dfy | `Scaffold` | the configurable scaffolder |
| module_scaffold.dfy | `ModuleScaffold` | the fixed-template scaffolder |

## Model

Source paths in this table are relative to the repository root. The
configurable variant is `src/dev_template/dev_template.py`; the
fixed-template variant is `src/module/dev_template.py`.

| member | source | states |
|---|---|---|
| Text.Strip | src/dev_template/dev_template.py:286 | The result has no whitespace at either end. It is the infix of the input left once the leading and trailing whitespace runs are removed, and only whitespace was removed. |
| Text.StripOfStripped | src/dev_template/dev_template.py:278-286 | Stripping text that is already stripped changes nothing, so stripping twice is the same as once. |
| Text.StripPadded | src/dev_template/dev_template.py:286 | A non-empty stripped name with one space on each side strips back to the name. |
| Text.StripSurrounded | src/dev_template/dev_template.py:286 | Any stripped text with any whitespace on each side strips back to that text. |
| Text.StripKeepsOut | src/dev_template/dev_template.py:88-89 | Stripping never introduces a character: a comma absent from a field is absent after stripping. |
| Text.UpperIdempotent | src/dev_template/dev_template.py:51 | Upper-casing an upper-cased name changes nothing; the reserved set's members are fixed points of the comparison. |
| Text.UpperKeepsForm | src/dev_template/dev_template.py:88-89 | Upper-casing keeps a stripped field stripped and adds no comma. |
| Text.CapitalizeIgnoresCase | src/module/dev_template.py:91 | `capitalize` depends only on the upper-case form: names that differ only in letter case give the same heading. |
| Text.CapitalizeKeepsLetters | src/module/dev_template.py:91 | `capitalize` keeps the letters and changes only their case: the upper-case form is unchanged. |
| Text.CapitalizeIdempotent | src/module/dev_template.py:91 | Capitalising a capitalised name changes nothing. |
| Text.JoinSplit | src/dev_template/dev_template.py:284 | Joining the fields of a split with the same separator gives the original text back. |
| Text.SplitJoin | src/dev_template/dev_template.py:278-284 | Splitting text joined from fields that hold no separator gives exactly those fields. |
| Text.SplitFieldsFree | src/dev_template/dev_template.py:284 | No field produced by splitting on a one-character separator contains that character. |
| Text.SplitAppend | src/dev_template/dev_template.py:284 | Splitting `a + sep + b` gives the fields of `a` followed by the fields of `b`. |
| Text.SplitWide | src/dev_template/dev_template.py:278-284 | Splitting `", "`-joined comma-free fields on `","` gives the first field unchanged and every later one with a leading space. |
| Text.SplitLinesOfLines | src/dev_template/dev_template.py:435 | `splitlines` of newline-terminated lines without line boundaries gives those lines back. |
| Text.SplitLinesPrefix | src/dev_template/dev_template.py:435 | `splitlines` reads newline-terminated lines off the front of any text, whatever follows them. |
| Text.ReplaceAllOnce | src/dev_template/dev_template.py:357 | One placeholder with placeholder-free text before it is replaced by the name in place. |
| Text.ReplaceAllAbsent | src/dev_template/dev_template.py:357 | A destination without the placeholder is left unchanged. |
| Paths.Components | src/dev_template/dev_template.py:356-359 | Every component of a relative path is non-empty and free of slashes. |
| Paths.ComponentsJoin | src/dev_template/dev_template.py:356-359 | Joining two relative paths with a slash concatenates their components. |
| Paths.ComponentsOfJoin | src/dev_template/dev_template.py:356-359 | Components are recovered from their slash-joined rendering. |
| Paths.DirnameOfChild | src/dev_template/dev_template.py:361 | `dirname` of a directory joined with one more component is that directory, so a copy first creates its destination's own directory. |
| Paths.Prefixes | src/dev_template/dev_template.py:320 | The directories `makedirs` may create are exactly the non-empty prefixes of the target. |
| Files.MakeDirs | src/dev_template/dev_template.py:318-322 | `makedirs` with `exist_ok=True` never touches files and only adds prefixes of the target. On success the target is a directory; on failure the error is a file in the way. |
| Files.MakeDirsWellFormed | src/dev_template/dev_template.py:320 | On a well-formed filesystem `makedirs` succeeds iff no prefix of the target is a file. It then adds every prefix and keeps the filesystem well formed. |
| Files.MakeDirsIdempotent | src/dev_template/dev_template.py:326-327 | Because of `exist_ok=True`, creating an existing directory again is not an error and changes nothing. |
| Files.ReadFile | src/module/dev_template.py:198-199 | Reading succeeds iff the file exists, and then yields its contents. |
| Files.WriteFile | src/module/dev_template.py:137-138 | Opening for writing succeeds iff the path is not a directory and its parent is. The file then holds exactly the new text, and every other file is unchanged. |
| Files.AppendFile | src/dev_template/dev_template.py:465 | Opening for appending succeeds under the same condition. The file then holds its old contents (none if it was missing) followed by the text, and every other file is unchanged. |
| Files.CopyFile | src/dev_template/dev_template.py:362 | A copy succeeds iff source and destination differ, the source exists and the destination can be opened. The destination then holds the source's contents and nothing else changes. |
| Files.ReadAfterWrite | src/module/dev_template.py:198-201 | Reading a file back after writing it yields what was written. |
| Files.AppendNothing | src/module/dev_template.py:193-196 | Appending nothing to an existing file leaves the filesystem as it was. |
| Names.Canonical | src/dev_template/dev_template.py:88 | A configured field's stored form is upper case and stripped, and holds no comma the field did not hold. |
| Names.CanonicalPadded | src/dev_template/dev_template.py:88 | For every field, the stored form is the field's text upper-cased once its surrounding whitespace is removed. |
| Names.ReservedSet | src/dev_template/dev_template.py:87-90 | Every reserved name is upper case, stripped and comma-free, and the first configured field is always reserved. |
| Names.ReservedSetAppend | src/dev_template/dev_template.py:87-90 | The names reserved by two comma-joined lists are the union of the names each list reserves. |
| Names.ReservedSetField | src/dev_template/dev_template.py:87-90 | Text without a comma reserves exactly its own upper-cased, stripped form. |
| Names.ReservedSetPair | src/dev_template/dev_template.py:87-90 | Every entry of a list is reserved, not only the first: `CON,PRN` reserves exactly `CON` and `PRN`. |
| Names.ReservedSetOfList | src/dev_template/dev_template.py:87-90 | A configuration value made of stripped, comma-free names joined with `", "` reserves exactly those names, upper-cased. |
| Names.DefaultReservedNames | src/dev_template/dev_template.py:116 | The fresh configuration reserves exactly its 35 listed names in upper case, including all 22 Windows device names. |
| Names.EmptyConfigReservesEmptyName | src/dev_template/dev_template.py:87-90 | An empty configuration value reserves exactly the empty name. |
| Names.ValidateName | src/dev_template/dev_template.py:49-55 | A name is rejected iff its upper-case form is reserved, with a reserved-name error. Otherwise it is returned unchanged. |
| Names.ValidationIgnoresCase | src/dev_template/dev_template.py:51 | Names that agree once upper-cased get the same verdict. |
| Names.AcceptProjectName | src/dev_template/dev_template.py:225-245 | The name prompt refuses a blank answer with the empty-name error. It accepts an answer iff that answer is not blank and not reserved, and then returns it unchanged. |
| Names.DeviceNamesRefused | src/module/dev_template.py:50-54 | With the fixed list, device names are refused in any letter case (`con`, `Lpt9`). |
| Names.DeviceLookalikesAccepted | src/module/dev_template.py:19-42 | Names that only resemble device names (`console`, `com10`) are accepted unchanged. |
| Names.StripAll | src/dev_template/dev_template.py:286 | The kept fields are non-empty and stripped, and there are no more of them than there were inputs. |
| Names.StripAllAppend | src/dev_template/dev_template.py:286 | Stripping and dropping empty fields works field by field: the result for `a + b` is the result for `a` followed by that for `b`. |
| Names.StripAllSingle | src/dev_template/dev_template.py:286 | One field gives its stripped form, or nothing when it is blank. |
| Names.ParsePackages | src/dev_template/dev_template.py:282-286 | Every parsed package name is non-empty, stripped and comma-free. |
| Names.ParsePackagesAppend | src/dev_template/dev_template.py:282-286 | Parsing `a,b` gives the packages of `a` followed by the packages of `b`. |
| Names.ParsePackagesField | src/dev_template/dev_template.py:282-286 | Text without a comma gives its stripped form as the one package, or no package when it is blank. |
| Names.ParsePackagesLeadingComma | src/dev_template/dev_template.py:282-286 | A leading comma adds only an empty field, which is dropped. |
| Names.ParsePackagesSkipsEmpty | src/dev_template/dev_template.py:282-286 | Empty fields are dropped: `a,,b` gives the two packages `a` and `b`. |
| Names.ParsePackagesStripsFields | src/dev_template/dev_template.py:282-286 | Fields are stripped: ` a , b` gives the packages `a` and `b`. |
| Names.ParsePackagesRoundTrip | src/module/dev_template.py:258-263 | Non-empty, stripped, comma-free names joined with `", "` parse back to the same list in the same order. |
| Names.AcceptingDefaultPackages | src/dev_template/dev_template.py:278-286 | Accepting the prompt's default yields the same packages as parsing the configured default list directly. |
| Names.StripEach | src/dev_template/dev_template.py:278 | Each configured default is stripped, one for one and in order. |
| Names.StripAllStripEach | src/dev_template/dev_template.py:278-286 | Stripping before parsing does not change the parsed list. |
| Install.Dedupe | src/dev_template/dev_template.py:385 | Each requested package appears exactly once, and nothing that was not requested appears. |
| Install.Partition | src/dev_template/dev_template.py:400-410 | Every reported success is a package the oracle installs, and every reported failure is one it does not install. |
| Install.PartitionPermutes | src/dev_template/dev_template.py:400-410 | Successes plus failures are a permutation of the attempts, so every attempt lands in exactly one list. |
| Install.PartitionMembers | src/dev_template/dev_template.py:400-410 | A package is reported successful iff it was attempted and installs, and failed iff it was attempted and does not. |
| Install.PartitionAppend | src/module/dev_template.py:170-180 | Attempting `a` then `b` reports `a`'s results followed by `b`'s, in both lists. |
| Install.PartitionCounts | src/module/dev_template.py:170-180 | A package attempted n times is reported n times, in the list the oracle decides. |
| Install.DistinctParts | src/dev_template/dev_template.py:385-410 | Distinct attempts give successes without repeats and failures without repeats. |
| Install.InstallPackages | src/dev_template/dev_template.py:380-427 | An empty request attempts nothing. Otherwise each distinct package is reported exactly once: as a success iff requested and installed, as a failure iff requested and not installed. |
| Install.InstallAll | src/module/dev_template.py:160-180 | The base packages are attempted first, then the requested ones in order without deduplication; together the two lists are a permutation of these attempts. |
| Install.RepeatedRequestReportedTwice | src/module/dev_template.py:160 | A requested package listed twice, and installable, is reported successful twice. |
| Freeze.Collect | src/dev_template/dev_template.py:435 | `dict()` over the lines succeeds iff every line splits into exactly two parts on `==`. Otherwise it fails at the first line that does not, reporting that line's part count. |
| Freeze.CollectKeys | src/dev_template/dev_template.py:435 | The keys of the map are exactly the names of the lines. |
| Freeze.CollectValues | src/dev_template/dev_template.py:435 | Each name maps to the version on the last line that names it. |
| Freeze.ParseFreeze | src/dev_template/dev_template.py:430-435 | Freeze output reads iff every line is `name==version`, and then its keys are exactly the line names. |
| Freeze.SplitRender | src/dev_template/dev_template.py:435 | A rendered `name==version` line splits back into its name and version. |
| Freeze.FreezeRoundTrip | src/dev_template/dev_template.py:435 | Output listing distinct plain pins reads back as the map from exactly those names to their versions. |
| Freeze.UnpinnedLineFails | src/dev_template/dev_template.py:435 | A line without `==`, after any number of well-formed lines, makes the whole read fail at that line with one part. |
| Stages.CopyOne | src/dev_template/dev_template.py:361-362 | One copy step may add directories and changes at most the destination, which gets the source's contents. A missing source always fails, and a failed step leaves files unchanged. |
| Stages.CopyAll | src/dev_template/dev_template.py:355-363 | The copy loop removes no directory or file. When it runs to the end, every destination exists. |
| Stages.CopyAllOnlyDsts | src/dev_template/dev_template.py:355-363 | Every file that appears is a destination, and every file that is not a destination keeps its contents. |
| Stages.CopyAllContents | src/dev_template/dev_template.py:355-363 | With distinct destinations that are never sources, a completed loop leaves each destination holding its source's original contents. |
| Stages.CopyAllMissingSource | src/dev_template/dev_template.py:359-362 | A missing template that no earlier copy creates makes the copy loop fail. |
| Stages.CopyAllInside | src/dev_template/dev_template.py:355-363 | Copies whose destinations lie in the project directory change no file outside it. |
| Stages.WriteAll | src/module/dev_template.py:136-139 | The write loop keeps the directories, removes no file, creates only listed paths and leaves unlisted files unchanged. |
| Stages.WriteAllInside | src/module/dev_template.py:136-139 | Writes to paths in the project directory change no file outside it. |
| Stages.WriteAllCompletes | src/module/dev_template.py:136-139 | The write loop completes iff every listed path can be opened for writing. |
| Stages.WriteAllContents | src/module/dev_template.py:136-139 | After a completed loop, a path no later entry names holds its entry's content: the last write wins. |
| Stages.WriteAllDistinct | src/module/dev_template.py:136-139 | With distinct paths, every listed path ends up holding its content. |
| Stages.AppendAll | src/dev_template/dev_template.py:461-472 | Only appends happen. Directories stay, no file disappears, old contents remain a prefix, only listed paths are created and unlisted files are unchanged. |
| Stages.AppendAllCompletes | src/dev_template/dev_template.py:461-472 | The append loop completes iff every listed path can be opened for appending. |
| Stages.AppendAllContents | src/dev_template/dev_template.py:461-472 | With distinct paths, each path ends up holding its old contents followed by its text. |
| Stages.ImportStatements | src/dev_template/dev_template.py:449-451 | There is one `import p` statement per package, in package order. |
| Stages.ImportLinesRoundTrip | src/dev_template/dev_template.py:449-451 | The import block splits back into exactly one `import` statement per package. |
| Stages.VenvDir | src/dev_template/dev_template.py:368 | The environment directory `<name>_venv` lies inside the project directory. |
| Stages.CreateVenv | src/dev_template/dev_template.py:367-377 | On success the venv tool succeeded, the environment directory exists and files are untouched. A failing tool, or a file in the way, gives the environment-creation error. |
| Scaffold.FilePlan | src/dev_template/dev_template.py:333-347 | The table starts with the seven fixed entries. It contains `setup.py` iff setup is not skipped and `pyproject.toml` iff pyproject is not skipped, so it has 7, 8 or 9 entries. `setup.py` comes right after the fixed entries and `pyproject.toml` comes last, in insertion order. |
| Scaffold.ProjectRoot | src/dev_template/dev_template.py:292 | The project directory is the chosen location followed by the name's components. |
| Scaffold.ProjectRootOfPlainName | src/dev_template/dev_template.py:292 | A non-empty name without a slash is one directory directly inside the chosen location, and `dirname` of the project directory gives the location back. |
| Scaffold.PackageDir | src/dev_template/dev_template.py:326 | The package directory lies strictly inside the project directory. |
| Scaffold.NestedComponents | src/dev_template/dev_template.py:337-338 | A path `<a>/<name>/<b>` has the components `a`, then the name's components, then `b`. |
| Scaffold.MainFile | src/dev_template/dev_template.py:449 | The `main.py` the update loop names is `main.py` inside the package directory. |
| Scaffold.Target | src/dev_template/dev_template.py:356-358 | Every copy destination lies inside the project directory. |
| Scaffold.Copies | src/dev_template/dev_template.py:355-359 | There is one copy per table entry, in table order. Each copies the template-directory file to the entry's target inside the project directory. |
| Scaffold.PlaceholderTarget | src/dev_template/dev_template.py:356-358 | An entry `<a>/{project_name}/<b>` is copied to `<root>/<a>/<name>/<b>`. |
| Scaffold.MainFileIsCopied | src/dev_template/dev_template.py:338 | The `main.py` the update loop appends to is the file the fifth table entry was copied to. |
| Scaffold.TargetEnds | src/dev_template/dev_template.py:333-347 | Each table entry lands below the project directory, under a first component and with a file name fixed by its position in the table. |
| Scaffold.TargetsDistinct | src/dev_template/dev_template.py:333-358 | Different table entries are copied to different destination files. |
| Scaffold.PlannedCopiesDistinct | src/dev_template/dev_template.py:355-362 | No two planned copies share a destination, so no copy overwrites another. |
| Scaffold.ReadmeCopy | src/dev_template/dev_template.py:334 | The first copy takes the template directory's `README.md` to the project's `README.md`. |
| Scaffold.PlannedCopies | src/dev_template/dev_template.py:331-359 | Every planned copy lands inside the project directory. |
| Scaffold.MakeLayoutDirs | src/dev_template/dev_template.py:318-327 | Only directories are added. On success the project directory, `src/<name>` and `tests` exist. A failure of the project directory is wrapped and leaves the filesystem unchanged. |
| Scaffold.Layout | src/dev_template/dev_template.py:295-302 | No directory is lost and nothing outside the project directory changes. A completed layout holds every planned file. |
| Scaffold.LayoutContents | src/dev_template/dev_template.py:355-362 | When no template lies inside the project directory, a completed layout leaves each destination holding exactly the text its template had before the run. |
| Scaffold.LayoutKeepsReadme | src/dev_template/dev_template.py:334 | Under the same condition, a completed layout's `README.md` holds the template's `README.md` text. |
| Scaffold.RequirementPins | src/dev_template/dev_template.py:466-469 | A pin is written iff its package is a success that the freeze map knows, and then with the frozen version. Failed packages and packages missing from the map are never pinned. |
| Scaffold.RequirementPinsAppend | src/dev_template/dev_template.py:466-469 | Pins follow success order: the pins for `a + b` are those for `a` followed by those for `b`. |
| Scaffold.RequirementPinsDistinct | src/dev_template/dev_template.py:466-469 | Distinct successes give pins with distinct names. |
| Scaffold.RequirementsRoundTrip | src/dev_template/dev_template.py:466-469 | Read back with the freeze reader, the appended pins are exactly the freeze map restricted to the successes. |
| Scaffold.UpdatedFilesDiffer | src/dev_template/dev_template.py:446-452 | `requirements.txt`, `pyproject.toml` and the package's `main.py` are three different files. |
| Scaffold.UpdatesShape | src/dev_template/dev_template.py:446-463 | Nothing is opened when no package installed. Otherwise the update list is `requirements.txt` first and `main.py` last, with `pyproject.toml` between them iff it is not skipped, and the paths are distinct. |
| Scaffold.UpdatesPaths | src/dev_template/dev_template.py:446-464 | The files opened are none when nothing installed, and otherwise `requirements.txt`, `main.py` and, unless skipped, `pyproject.toml`. |
| Scaffold.UpdatesWithin | src/dev_template/dev_template.py:446-464 | Only the three update files are opened, and `pyproject.toml` never when it is skipped. |
| Scaffold.UpdatesWritable | src/dev_template/dev_template.py:461-465 | Every file the loop opens can be opened iff, when something installed, each of the two or three update files can be. |
| Scaffold.Reconcile | src/dev_template/dev_template.py:438-474 | Every change is an append. Only the three update files can appear, and every other file keeps its contents. |
| Scaffold.ReconcileCompletes | src/dev_template/dev_template.py:444-472 | The update completes iff the freeze output reads and, when some package installed, each file it appends to can be opened; `pyproject.toml` counts only when not skipped. |
| Scaffold.ReconcileLeavesPyproject | src/dev_template/dev_template.py:448 | With `pyproject.toml` skipped, the update leaves it exactly as it was, present or absent. |
| Scaffold.ReconcileContents | src/dev_template/dev_template.py:461-471 | When the freeze output reads and nothing installed, the update changes nothing. When something installed and each file can be opened, `requirements.txt` holds its old text plus the pins and `main.py` its old text plus the imports. Unless skipped, `pyproject.toml` holds its old text plus the names. |
| Scaffold.ReconcileEnds | src/dev_template/dev_template.py:461-471 | A completed update after some install leaves the pins, the imports and, unless skipped, the names at the end of their files, and the freeze output was readable. |
| Scaffold.ReconcileInside | src/dev_template/dev_template.py:464 | The update changes no file outside the project directory. |
| Scaffold.Scaffold | src/dev_template/dev_template.py:289-315 | A reserved name fails before any change and nothing outside the project directory changes. A created project has a venv and every planned file. It reports exactly the install loop's lists: each requested package once, as installed iff the oracle installs it. |
| Scaffold.ScaffoldRecords | src/dev_template/dev_template.py:289-315 | A created project in which something installed ends `requirements.txt` with the pins, `main.py` with the imports and, unless skipped, `pyproject.toml` with the names. |
| Scaffold.NoSuccessIgnoresFreeze | src/dev_template/dev_template.py:310-315 | When nothing installs, the run does not depend on the freeze output, even output the reader would reject. |
| ModuleScaffold.BasicFiles | src/module/dev_template.py:90-128 | There are exactly eight files, all strictly inside the project directory. |
| ModuleScaffold.BasicPathsDistinct | src/module/dev_template.py:90-128 | The eight files are different files. |
| ModuleScaffold.BasicFilesWritten | src/module/dev_template.py:136-139 | When all eight paths can be opened for writing, writing the basic files leaves each of the eight files holding its own text. |
| ModuleScaffold.MakeLayoutDirs | src/module/dev_template.py:77-86 | Only directories are added. On success `src` and `tests` exist inside the project directory. |
| ModuleScaffold.Layout | src/module/dev_template.py:57-70 | No directory is lost and nothing outside the project directory changes. |
| ModuleScaffold.LayoutContents | src/module/dev_template.py:90-139 | A completed layout holds `pydantic\npytest\n` in `requirements.txt`, the template `main.py`, the name-derived `.gitignore`, README and `setup.py`, and the fixed texts of `src/__init__.py`, `tests/__init__.py` and `tests/test_main.py`. |
| ModuleScaffold.GitIgnoreListsVenv | src/module/dev_template.py:92 | The `.gitignore` ends with the line `<name>_venv/`, naming the environment directory the run creates. |
| ModuleScaffold.Chosen | src/module/dev_template.py:194-196 | The recorded packages come from the request and are successes. Each is recorded as often as it was requested if it installed, and not at all otherwise. |
| ModuleScaffold.ChosenAppend | src/module/dev_template.py:194-196 | Recording keeps request order: the packages chosen from `a + b` are those chosen from `a` followed by those chosen from `b`. |
| ModuleScaffold.ChosenAreInstalled | src/module/dev_template.py:192-196 | A package is recorded iff the user requested it and it installed; a base package the user did not request is never recorded again. |
| ModuleScaffold.Record | src/module/dev_template.py:193-205 | Recording completes iff `requirements.txt` can be appended to and `main.py` exists and can be rewritten. Then `requirements.txt` keeps its old text as a prefix and `main.py` keeps its old text as a suffix after the imports. No other file changes, and a missing `main.py` is an error. |
| ModuleScaffold.RecordNothing | src/module/dev_template.py:193-205 | With nothing to record, an existing project's two files come out exactly as they went in. |
| ModuleScaffold.ProjectRoot | src/module/dev_template.py:60 | The project directory is the chosen location followed by the name's components. |
| ModuleScaffold.ProjectRootOfPlainName | src/module/dev_template.py:60 | A non-empty name without a slash is one directory directly inside the chosen location, and `dirname` of the project directory gives the location back. |
| ModuleScaffold.Scaffold | src/module/dev_template.py:57-74 | A device name fails before any change and nothing outside the project directory changes. A created project has a venv, and its install report is the base-then-requested attempt sequence. |
| ModuleScaffold.ScaffoldFiles | src/module/dev_template.py:193-205 | A created project's `requirements.txt` is the two base packages plus each recorded package. Its `main.py` is an import per recorded package followed by the template text. |

## Left out

- Interactive prompts, colours, progress bars and printed messages are not modelled, and neither are the retry loops in `main`, `get_project_name` and `get_project_path`. The name prompt's blank check is kept (`Names.AcceptProjectName`).
- Reading and writing `config.ini` (`initialize_config`, `setup_config`, `get_config_path`) and `copy_templates` are not modelled. The configuration values are parameters (`Scaffold.Settings`). The default reserved-name value is kept as `Names.DefaultReservedConfig`.
- The subprocesses (`python -m venv`, `pip install`, `pip freeze`) and the choice between `Scripts` and `bin` are parameters of `World`. A failure of the `pip freeze` process itself is not modelled; only its output is read.
- What the venv tool puts inside the environment directory is not modelled; only the directory is.
- Pydantic's `DirectoryPath` existence check and `os.access` are not modelled. Permissions, disk errors and other operating-system failures are not modelled; the only open and copy errors are a missing path, a directory in the way and a file copied onto itself.
- The error messages' texts are not modelled; errors are constructors of `Errors.Error`.
- Install.Dedupe: Python leaves the order of `list(set(packages))` unspecified; the model uses first-occurrence order. The contracts of `Install.InstallPackages` speak only of membership, distinctness and counts, so they hold for every order. `Scaffold.Scaffold` reports exactly what `Install.InstallPackages` returns, so its lists are in the model's order.
- Text.Upper: only ASCII letters change case (and likewise `Text.Lower` and `Text.Capitalize`); Python's full Unicode case mapping is not modelled.
- Paths.Components: paths are relative component lists with empty components dropped. An absolute second argument to `os.path.join` and the `.`/`..` components are not modelled.
- Scaffold.ProjectRoot: a name holding `..` components or starting with `/` is read as plain components below the chosen location, so the model does not show `os.path.join` escaping that location; the contract says only that the chosen location is a prefix.
- ModuleScaffold.ProjectRoot: the same holds for the fixed-template variant's `os.path.join`.
- Scaffold.LayoutContents: it needs the templates to lie outside the project directory; when a template is itself a destination, a copy could read text an earlier copy wrote, and the lemma states nothing about the contents in that case.
- Text.ReplaceAll: `str.format` is modelled only for the `{project_name}` field; other braces in a destination are left as they are.
- The configurable variant appends the successful names to `pyproject.toml` with `writelines`, which writes them back to back with no separator. `Scaffold.Updates` models that as written (`Text.Concat`).
- `tests/test_dev_template.py` was written against another revision of the program (it calls helper functions absent from this revision of the program), so its expectations are not used as contracts.
